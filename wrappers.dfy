/** Values shared by the base and the temporal scorer: an optional value, the two
    kinds of error the scorer reports, and Go's two-valued (value, error) return. */
module Wrappers {

  datatype Option<+T> = None | Some(value: T)

  /** The two errors of the scorer: a CVSS version other than 2 was requested,
      or the vector string holds no occurrence of the metric pattern. */
  datatype CvssError = UnsupportedVersion | ParseError

  /** A Go result pair: the value returned beside an error that is absent on success.
      On failure the source still returns a value (the zero record or score 0). */
  datatype Returned<+T> = Returned(value: T, err: Option<CvssError>)
}
