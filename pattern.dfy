/** A matcher for the two metric patterns of the scorer. Both regular expressions,
      AV:([LAN])/AC:([HML])/Au:([MSN])/C:([NPC])/I:([NPC])/A:([NPC])
      E:(POC|ND|[UFH])/RL:(OF|TF|ND|[WU])/RC:(UC|UR|ND|C)
    are a sequence of fields, each a literal prefix followed by one capturing group
    of alternatives; a character class is the group of its one-letter alternatives.
    The matcher tries the alternatives of a group in order and backtracks into the
    next alternative when the rest of the pattern fails, which is the leftmost-first
    rule of Go's regexp package; the search takes the leftmost start position, whose
    match is the first element of FindAllStringSubmatch's result. */
module Pattern {
  import opened Wrappers

  /** A literal prefix such as "/AC:" followed by a capturing group. */
  datatype Field = Field(prefix: string, alts: seq<string>)

  /** A match starting at a given position: where it ends and what each group captured. */
  datatype Match = Match(end: nat, captures: seq<string>)

  /** A match found by the search: where it starts and what each group captured. */
  datatype Found = Found(start: nat, captures: seq<string>)

  predicate OccursAt(t: string, s: string, i: nat) {
    i + |t| <= |s| && s[i..i + |t|] == t
  }

  predicate IsPrefix(x: string, y: string) {
    |x| <= |y| && y[..|x|] == x
  }

  /** No alternative of the group is a prefix of another, so at most one can occur at a position. */
  predicate PrefixFreeAlts(alts: seq<string>) {
    forall a, b :: 0 <= a < |alts| && 0 <= b < |alts| && a != b ==> !IsPrefix(alts[a], alts[b])
  }

  predicate PrefixFree(p: seq<Field>) {
    forall k :: 0 <= k < |p| ==> PrefixFreeAlts(p[k].alts)
  }

  /** x and y differ at some position from k on that both have. */
  predicate Clash(x: string, y: string, k: nat)
    decreases |x| - k
  {
    k < |x| && k < |y| && (x[k] != y[k] || Clash(x, y, k + 1))
  }

  lemma {:induction false} ClashNotPrefix(x: string, y: string, k: nat)
    requires Clash(x, y, k)
    ensures !IsPrefix(x, y) && !IsPrefix(y, x)
    decreases |x| - k
  {
    if x[k] == y[k] {
      ClashNotPrefix(x, y, k + 1);
    }
  }

  /** No alternative from index j on clashes with x. */
  predicate UnrelatedFrom(x: string, alts: seq<string>, j: nat)
    decreases |alts| - j
  {
    j >= |alts| || (Clash(x, alts[j], 0) && UnrelatedFrom(x, alts, j + 1))
  }

  /** A form of PrefixFreeAlts, from index a on, that can be evaluated on a literal group. */
  predicate PairwiseUnrelatedFrom(alts: seq<string>, a: nat)
    decreases |alts| - a
  {
    a >= |alts| || (UnrelatedFrom(alts[a], alts, a + 1) && PairwiseUnrelatedFrom(alts, a + 1))
  }

  lemma {:induction false} UnrelatedAt(x: string, alts: seq<string>, j: nat, b: nat)
    requires UnrelatedFrom(x, alts, j) && j <= b < |alts|
    ensures !IsPrefix(x, alts[b]) && !IsPrefix(alts[b], x)
    decreases b - j
  {
    if j < b {
      UnrelatedAt(x, alts, j + 1, b);
    } else {
      ClashNotPrefix(x, alts[b], 0);
    }
  }

  lemma {:induction false} PairwiseUnrelatedPrefixFree(alts: seq<string>, a: nat)
    requires PairwiseUnrelatedFrom(alts, a)
    ensures forall x, y :: a <= x < |alts| && a <= y < |alts| && x != y ==> !IsPrefix(alts[x], alts[y])
    decreases |alts| - a
  {
    if a < |alts| {
      PairwiseUnrelatedPrefixFree(alts, a + 1);
      forall x, y | a <= x < |alts| && a <= y < |alts| && x != y
        ensures !IsPrefix(alts[x], alts[y])
      {
        if x == a {
          UnrelatedAt(alts[a], alts, a + 1, y);
        } else if y == a {
          UnrelatedAt(alts[a], alts, a + 1, x);
        }
      }
    }
  }

  /** Checks, on a literal group, that its alternatives are prefix-free. */
  lemma GroupPrefixFree(alts: seq<string>)
    requires PairwiseUnrelatedFrom(alts, 0)
    ensures PrefixFreeAlts(alts)
  {
    PairwiseUnrelatedPrefixFree(alts, 0);
  }

  /** The captures choose one alternative of each field's group. */
  predicate Fits(p: seq<Field>, caps: seq<string>) {
    |caps| == |p| && forall k :: 0 <= k < |p| ==> caps[k] in p[k].alts
  }

  /** The text that the pattern matches when its groups take the given captures:
      the declarative meaning of the pattern, against which the matcher is proved. */
  function Spell(p: seq<Field>, caps: seq<string>): string
    requires |caps| == |p|
  {
    if p == [] then [] else p[0].prefix + caps[0] + Spell(p[1..], caps[1..])
  }

  /** Matches the pattern anchored at position i of s. */
  function MatchFrom(p: seq<Field>, s: string, i: nat): Option<Match>
    decreases |p|, 1, 0
  {
    if p == [] then Some(Match(i, []))
    else if OccursAt(p[0].prefix, s, i) then TryAlts(p[0].alts, p[1..], s, i + |p[0].prefix|)
    else None
  }

  /** Tries the alternatives of one group in order, each followed by the rest of the pattern. */
  function TryAlts(alts: seq<string>, rest: seq<Field>, s: string, i: nat): Option<Match>
    decreases |rest| + 1, 0, |alts|
  {
    if alts == [] then None
    else if OccursAt(alts[0], s, i) then
      match MatchFrom(rest, s, i + |alts[0]|)
      case Some(m) => Some(Match(m.end, [alts[0]] + m.captures))
      case None => TryAlts(alts[1..], rest, s, i)
    else TryAlts(alts[1..], rest, s, i)
  }

  /** The leftmost match at or after position `from`. */
  function FindFirst(p: seq<Field>, s: string, from: nat): (r: Option<Found>)
    decreases |s| + 1 - from
    ensures r.Some? ==> (from <= r.value.start <= |s|
      && MatchFrom(p, s, r.value.start).Some?
      && MatchFrom(p, s, r.value.start).value.captures == r.value.captures)
    ensures r.Some? ==> forall j :: from <= j < r.value.start ==> MatchFrom(p, s, j).None?
    ensures r.None? ==> forall j :: from <= j <= |s| ==> MatchFrom(p, s, j).None?
  {
    if from > |s| then None
    else match MatchFrom(p, s, from)
      case Some(m) => Some(Found(from, m.captures))
      case None => FindFirst(p, s, from + 1)
  }

  lemma OccursAtConcat(t: string, u: string, s: string, i: nat)
    ensures OccursAt(t + u, s, i) <==> OccursAt(t, s, i) && OccursAt(u, s, i + |t|)
  {
    if OccursAt(t, s, i) && OccursAt(u, s, i + |t|) {
      assert s[i..i + |t + u|] == s[i..i + |t|] + s[i + |t|..i + |t| + |u|];
    }
    if OccursAt(t + u, s, i) {
      assert s[i..i + |t|] == (t + u)[..|t|];
      assert s[i + |t|..i + |t| + |u|] == (t + u)[|t|..];
    }
  }

  /** Two strings occurring at the same position: the shorter is a prefix of the longer. */
  lemma SamePositionPrefix(x: string, y: string, s: string, i: nat)
    ensures OccursAt(x, s, i) && OccursAt(y, s, i) && |x| <= |y| ==> IsPrefix(x, y)
  {
    if OccursAt(x, s, i) && OccursAt(y, s, i) && |x| <= |y| {
      assert y[..|x|] == s[i..i + |y|][..|x|] == s[i..i + |x|];
    }
  }

  /** Soundness: whatever the matcher returns is an occurrence of the pattern spelled
      with the returned captures, and the captures fit the groups. */
  lemma {:induction false} MatchFromSound(p: seq<Field>, s: string, i: nat)
    requires i <= |s|
    decreases |p|, 1, 0
    ensures MatchFrom(p, s, i).Some? ==>
      var m := MatchFrom(p, s, i).value;
      Fits(p, m.captures) && OccursAt(Spell(p, m.captures), s, i) && m.end == i + |Spell(p, m.captures)|
  {
    if p != [] && OccursAt(p[0].prefix, s, i) {
      var j := i + |p[0].prefix|;
      TryAltsSound(p[0].alts, p[1..], s, j);
      if MatchFrom(p, s, i).Some? {
        var caps := MatchFrom(p, s, i).value.captures;
        assert MatchFrom(p, s, i) == TryAlts(p[0].alts, p[1..], s, j);
        var tail := caps[0] + Spell(p[1..], caps[1..]);
        assert Spell(p, caps) == p[0].prefix + tail;
        OccursAtConcat(p[0].prefix, tail, s, i);
        forall k | 0 <= k < |p| ensures caps[k] in p[k].alts {
          if k > 0 { assert caps[k] == caps[1..][k - 1]; }
        }
      }
    }
  }

  lemma {:induction false} TryAltsSound(alts: seq<string>, rest: seq<Field>, s: string, i: nat)
    decreases |rest| + 1, 0, |alts|
    ensures TryAlts(alts, rest, s, i).Some? ==>
      var m := TryAlts(alts, rest, s, i).value;
      |m.captures| == |rest| + 1 && m.captures[0] in alts && Fits(rest, m.captures[1..])
      && OccursAt(m.captures[0] + Spell(rest, m.captures[1..]), s, i)
      && m.end == i + |m.captures[0] + Spell(rest, m.captures[1..])|
  {
    if alts != [] {
      TryAltsSound(alts[1..], rest, s, i);
      if OccursAt(alts[0], s, i) {
        MatchFromSound(rest, s, i + |alts[0]|);
        match MatchFrom(rest, s, i + |alts[0]|)
        case Some(m) =>
          var caps := [alts[0]] + m.captures;
          assert caps[1..] == m.captures;
          OccursAtConcat(alts[0], Spell(rest, m.captures), s, i);
        case None =>
      }
    }
  }

  /** An occurrence of a spelled pattern splits into the first prefix, the first
      capture and the spelling of the remaining fields, one after the other. */
  lemma SpellSplits(p: seq<Field>, caps: seq<string>, s: string, i: nat)
    requires p != [] && |caps| == |p| && OccursAt(Spell(p, caps), s, i)
    ensures var j := i + |p[0].prefix|;
      OccursAt(p[0].prefix, s, i) && OccursAt(caps[0], s, j)
      && OccursAt(Spell(p[1..], caps[1..]), s, j + |caps[0]|)
      && |Spell(p, caps)| == |p[0].prefix| + |caps[0]| + |Spell(p[1..], caps[1..])|
  {
    var head := p[0].prefix + caps[0];
    var tail := Spell(p[1..], caps[1..]);
    assert Spell(p, caps) == head + tail;
    OccursAtConcat(head, tail, s, i);
    OccursAtConcat(p[0].prefix, caps[0], s, i);
  }

  /** Dropping the first field keeps the groups prefix-free and the captures fitting. */
  lemma TailFits(p: seq<Field>, caps: seq<string>)
    requires p != [] && PrefixFree(p) && Fits(p, caps)
    ensures PrefixFree(p[1..]) && Fits(p[1..], caps[1..]) && PrefixFreeAlts(p[0].alts) && caps[0] in p[0].alts
  {
    var rest := p[1..];
    forall k | 0 <= k < |rest| ensures PrefixFreeAlts(rest[k].alts) && caps[1..][k] in rest[k].alts {
      assert rest[k] == p[k + 1];
    }
  }

  /** Completeness: when the pattern occurs at position i with captures that fit its
      prefix-free groups, the matcher returns exactly those captures. */
  lemma {:induction false} MatchFromComplete(p: seq<Field>, s: string, i: nat, caps: seq<string>)
    requires PrefixFree(p) && Fits(p, caps) && OccursAt(Spell(p, caps), s, i)
    ensures MatchFrom(p, s, i) == Some(Match(i + |Spell(p, caps)|, caps))
    decreases |p|
  {
    if p != [] {
      var rest := p[1..];
      var j := i + |p[0].prefix|;
      SpellSplits(p, caps, s, i);
      TailFits(p, caps);
      MatchFromComplete(rest, s, j + |caps[0]|, caps[1..]);
      MatchFromStep(p, s, i, caps, i + |Spell(p, caps)|);
    }
  }

  /** One step of completeness: the first prefix and first capture occur, and the rest
      of the pattern matches with the remaining captures. */
  lemma MatchFromStep(p: seq<Field>, s: string, i: nat, caps: seq<string>, e: nat)
    requires p != [] && |caps| == |p| && PrefixFreeAlts(p[0].alts) && caps[0] in p[0].alts
    requires OccursAt(p[0].prefix, s, i) && OccursAt(caps[0], s, i + |p[0].prefix|)
    requires MatchFrom(p[1..], s, i + |p[0].prefix| + |caps[0]|) == Some(Match(e, caps[1..]))
    ensures MatchFrom(p, s, i) == Some(Match(e, caps))
  {
    TryAltsFinds(p[0].alts, p[1..], s, i + |p[0].prefix|, caps[0], Match(e, caps[1..]));
    assert [caps[0]] + caps[1..] == caps;
  }

  lemma {:induction false} TryAltsFinds(alts: seq<string>, rest: seq<Field>, s: string, i: nat, c: string, m: Match)
    requires PrefixFreeAlts(alts) && c in alts && OccursAt(c, s, i)
    requires MatchFrom(rest, s, i + |c|) == Some(m)
    ensures TryAlts(alts, rest, s, i) == Some(Match(m.end, [c] + m.captures))
    decreases |alts|
  {
    if alts[0] != c {
      var b :| 0 <= b < |alts| && alts[b] == c;
      assert b != 0;
      SamePositionPrefix(alts[0], alts[b], s, i);
      SamePositionPrefix(alts[b], alts[0], s, i);
      assert !OccursAt(alts[0], s, i);
      assert c == alts[1..][b - 1];
      assert PrefixFreeAlts(alts[1..]) by {
        forall x, y | 0 <= x < |alts| - 1 && 0 <= y < |alts| - 1 && x != y
          ensures !IsPrefix(alts[1..][x], alts[1..][y])
        {
          assert alts[1..][x] == alts[x + 1] && alts[1..][y] == alts[y + 1];
        }
      }
      TryAltsFinds(alts[1..], rest, s, i, c, m);
    }
  }

  /** With prefix-free groups there is at most one way to match at a position. */
  lemma MatchUnique(p: seq<Field>, s: string, i: nat, c1: seq<string>, c2: seq<string>)
    requires PrefixFree(p) && Fits(p, c1) && Fits(p, c2)
    requires OccursAt(Spell(p, c1), s, i) && OccursAt(Spell(p, c2), s, i)
    ensures c1 == c2
  {
    MatchFromComplete(p, s, i, c1);
    MatchFromComplete(p, s, i, c2);
  }

  /** An occurrence at the very start is the leftmost one, whatever text follows it. */
  lemma LeftmostAtStart(p: seq<Field>, caps: seq<string>, t: string)
    requires PrefixFree(p) && Fits(p, caps)
    ensures FindFirst(p, Spell(p, caps) + t, 0) == Some(Found(0, caps))
  {
    var s := Spell(p, caps) + t;
    assert s[0..|Spell(p, caps)|] == Spell(p, caps);
    MatchFromComplete(p, s, 0, caps);
  }
}
