/** The stable root alias of a shared directory: `share_name_for_path`. */
module ShareAlias {
  import opened Bytes
  import opened Paths

  const DASH: Bytes := [32, 45, 32]

  // -------------------------------------------------------------- decimals

  function Decimal(n: nat): (r: Bytes)
    ensures |r| > 0
    ensures forall d | d in r :: 48 <= d < 58
  {
    if n < 10 then [(48 + n) as byte] else Decimal(n / 10) + [(48 + n % 10) as byte]
  }

  function DecimalValue(s: Bytes): int {
    if s == [] then 0 else 10 * DecimalValue(s[..|s| - 1]) + (s[|s| - 1] as int - 48)
  }

  lemma {:induction false} DecimalRoundTrip(n: nat)
    ensures DecimalValue(Decimal(n)) == n
  {
    if n < 10 {
      assert Decimal(n)[..0] == [];
    } else {
      DecimalRoundTrip(n / 10);
      var r := Decimal(n);
      assert r[..|r| - 1] == Decimal(n / 10);
    }
  }

  // ------------------------------------------------------------ candidates

  function JoinDash(ns: seq<Name>): Bytes {
    if ns == [] then []
    else if |ns| == 1 then ns[0]
    else ns[0] + DASH + JoinDash(ns[1..])
  }

  function Numbered(basename: Name, i: nat): Bytes {
    basename + DASH + Decimal(i)
  }

  /** The aliases tried, in order: the base name, ever longer path suffixes, then
      the base name with a number from 2 up. */
  function Candidate(basename: Name, comps: seq<Name>, i: nat): Bytes {
    if i == 0 then basename
    else if i < |comps| then JoinDash(comps[|comps| - 1 - i..])
    else Numbered(basename, i - |comps| + 2)
  }

  /** The order of the aliases: each longer suffix puts the next directory's name in
      front of the one before; then come numbers from 2 up behind the base name. */
  lemma CandidateIs(basename: Name, comps: seq<Name>, i: nat)
    requires comps != [] && comps[|comps| - 1] == basename
    ensures i == 0 ==> Candidate(basename, comps, i) == basename
    ensures 0 < i < |comps| ==>
              Candidate(basename, comps, i) ==
                comps[|comps| - 1 - i] + [32, 45, 32] + Candidate(basename, comps, i - 1)
    ensures i >= |comps| ==>
              var c, stem := Candidate(basename, comps, i), basename + [32, 45, 32];
              && stem <= c && DecimalValue(c[|stem|..]) == i - |comps| + 2
              && forall d | d in c[|stem|..] :: 48 <= d < 58
  {
    var n := |comps|;
    if 0 < i < n {
      var suffix := comps[n - 1 - i..];
      assert suffix[0] == comps[n - 1 - i] && suffix[1..] == comps[n - i..];
      assert JoinDash(suffix) == suffix[0] + [32, 45, 32] + JoinDash(suffix[1..]);
      if i == 1 { assert suffix[1..] == [basename]; }
    } else if i >= n {
      DecimalRoundTrip(i - n + 2);
      var stem := basename + DASH;
      assert Numbered(basename, i - n + 2)[|stem|..] == Decimal(i - n + 2);
    }
  }

  lemma NumberedInjective(basename: Name, i: nat, j: nat)
    requires Numbered(basename, i) == Numbered(basename, j)
    ensures i == j
  {
    DecimalRoundTrip(i);
    DecimalRoundTrip(j);
    assert Numbered(basename, i)[|basename + DASH|..] == Decimal(i);
    assert Numbered(basename, j)[|basename + DASH|..] == Decimal(j);
  }

  ghost function NumberedUpTo(basename: Name, m: nat): set<Bytes> {
    if m == 0 then {} else NumberedUpTo(basename, m - 1) + {Numbered(basename, m + 1)}
  }

  lemma {:induction false} NumberedDistinct(basename: Name, m: nat)
    ensures |NumberedUpTo(basename, m)| == m
    ensures forall k | k in NumberedUpTo(basename, m) :: exists i: nat :: 2 <= i < m + 2 && k == Numbered(basename, i)
  {
    if m != 0 {
      NumberedDistinct(basename, m - 1);
      var last := Numbered(basename, m + 1);
      if last in NumberedUpTo(basename, m - 1) {
        var i: nat :| 2 <= i < m + 1 && last == Numbered(basename, i);
        NumberedInjective(basename, i, m + 1);
      }
    }
  }

  lemma SubsetIsSmaller<T>(a: set<T>, b: set<T>)
    requires a <= b
    ensures |a| <= |b|
  {
    assert b == a + (b - a);
  }

  /** Pigeonhole: finitely many aliases are taken, so some candidate is free. */
  lemma SomeCandidateFree(taken: set<Name>, basename: Name, comps: seq<Name>)
    requires comps != []
    ensures exists i: nat :: Candidate(basename, comps, i) !in taken
  {
    if forall i: nat :: Candidate(basename, comps, i) in taken {
      var n := |taken| + 1;
      var s := NumberedUpTo(basename, n);
      NumberedDistinct(basename, n);
      forall k | k in s ensures k in taken {
        var i: nat :| 2 <= i < n + 2 && k == Numbered(basename, i);
        assert Candidate(basename, comps, i - 2 + |comps|) == k;
      }
      SubsetIsSmaller(s, taken);
    }
  }

  ghost predicate IsFirstFree(taken: set<Name>, basename: Name, comps: seq<Name>, i: nat) {
    Candidate(basename, comps, i) !in taken && forall j: nat | j < i :: Candidate(basename, comps, j) in taken
  }

  lemma FirstFreeBelow(taken: set<Name>, basename: Name, comps: seq<Name>, i: nat)
    requires Candidate(basename, comps, i) !in taken
    ensures exists j: nat :: IsFirstFree(taken, basename, comps, j)
  {
    if !IsFirstFree(taken, basename, comps, i) {
      var j: nat :| j < i && Candidate(basename, comps, j) !in taken;
      FirstFreeBelow(taken, basename, comps, j);
    }
  }

  ghost function FirstFree(taken: set<Name>, basename: Name, comps: seq<Name>): (i: nat)
    requires comps != []
    ensures IsFirstFree(taken, basename, comps, i)
  {
    SomeCandidateFree(taken, basename, comps);
    var free: nat :| Candidate(basename, comps, free) !in taken;
    FirstFreeBelow(taken, basename, comps, free);
    var i: nat :| IsFirstFree(taken, basename, comps, i);
    i
  }

  // ------------------------------------------------------------- the choice

  function HeldBy(names: map<Name, Bytes>, path: Bytes): set<Name> {
    set a | a in names && names[a] == path
  }

  /** The alias a path gets: the first one already held by it, or else the first
      free candidate. `None` when a base name is needed and there is none. */
  ghost function AliasFor(names: map<Name, Bytes>, path: Bytes): Option<Name> {
    if HeldBy(names, path) != {} then Some(Least(HeldBy(names, path)))
    else
      match FileName(path)
      case None => None
      case Some(basename) =>
        FileNameIsLast(path);
        var comps := Normals(Parse(path));
        Some(Candidate(basename, comps, FirstFree(names.Keys, basename, comps)))
  }

  lemma {:induction false} NormalsLast(cs: seq<Component>)
    requires cs != [] && cs[|cs| - 1].Normal?
    ensures Normals(cs) != [] && Normals(cs)[|Normals(cs)| - 1] == cs[|cs| - 1].name
  {
    if |cs| > 1 { NormalsLast(cs[1..]); }
  }

  lemma FileNameIsLast(path: Bytes)
    requires FileName(path).Some?
    ensures var comps := Normals(Parse(path));
            comps != [] && comps[|comps| - 1] == FileName(path).value
  {
    NormalsLast(Parse(path));
  }

  /** The search: every candidate before the returned one is taken, and the
      numbered loop ends. */
  method ShareNameForPath(names: map<Name, Bytes>, path: Bytes) returns (r: Option<Name>)
    ensures r == AliasFor(names, path)
  {
    var existing := Sorted(names.Keys);
    for i := 0 to |existing|
      invariant forall j | 0 <= j < i :: names[existing[j]] != path
    {
      if names[existing[i]] == path {
        FirstHolder(names, path, existing, i);
        return Some(existing[i]);
      }
    }
    assert HeldBy(names, path) == {};
    var name := FileName(path);
    if name.None? { return None; }
    FileNameIsLast(path);
    var free := FreeCandidate(names, name.value, Normals(Parse(path)));
    return Some(free);
  }

  method FreeCandidate(names: map<Name, Bytes>, basename: Name, comps: seq<Name>) returns (candidate: Bytes)
    requires comps != []
    ensures candidate == Candidate(basename, comps, FirstFree(names.Keys, basename, comps))
  {
    ghost var free := FirstFree(names.Keys, basename, comps);
    assert basename == Candidate(basename, comps, 0);
    if basename !in names {
      assert free == 0;
      return basename;
    }
    for suffixLen := 2 to |comps| + 1
      invariant forall j: nat | j < suffixLen - 1 :: Candidate(basename, comps, j) in names
    {
      candidate := JoinDash(comps[|comps| - suffixLen..]);
      assert candidate == Candidate(basename, comps, suffixLen - 1);
      if candidate !in names {
        assert free == suffixLen - 1;
        return;
      }
    }
    var i := 2;
    while true
      invariant i >= 2
      invariant forall j: nat | j < |comps| + i - 2 :: Candidate(basename, comps, j) in names
      decreases free + 1 - i
    {
      candidate := Numbered(basename, i);
      assert candidate == Candidate(basename, comps, |comps| + i - 2);
      if candidate !in names {
        assert free == |comps| + i - 2;
        return;
      }
      i := i + 1;
    }
  }

  lemma FirstHolder(names: map<Name, Bytes>, path: Bytes, order: seq<Bytes>, i: nat)
    requires Ascending(order) && (forall k :: k in order <==> k in names)
    requires i < |order| && names[order[i]] == path
    requires forall j | 0 <= j < i :: names[order[j]] != path
    ensures HeldBy(names, path) != {} && order[i] == Least(HeldBy(names, path))
  {
    var s := HeldBy(names, path);
    assert order[i] in s;
    var k := Least(s);
    var j :| 0 <= j < |order| && order[j] == k;
    assert j >= i;
    if j > i { LexAntisymmetric(order[i], k); }
  }

  // -------------------------------------------------- what the choice means

  predicate AliasesSound(names: map<Name, Bytes>) {
    && (forall a | a in names :: GoodName(a))
    && (forall a, b | a in names && b in names && names[a] == names[b] :: a == b)
  }

  lemma {:induction false} JoinDashGood(ns: seq<Name>)
    requires ns != [] && forall n | n in ns :: GoodName(n)
    ensures SEP !in JoinDash(ns) && |JoinDash(ns)| > 0
    ensures |ns| > 1 ==> |JoinDash(ns)| > 2
  {
    assert ns[0] in ns;
    if |ns| > 1 { JoinDashGood(ns[1..]); }
  }

  lemma CandidateGood(basename: Name, comps: seq<Name>, i: nat)
    requires GoodName(basename) && forall n | n in comps :: GoodName(n)
    ensures GoodName(Candidate(basename, comps, i))
  {
    if 0 < i < |comps| {
      JoinDashGood(comps[|comps| - 1 - i..]);
    } else if i != 0 {
      assert SEP !in Decimal(i - |comps| + 2);
    }
  }

  /** The chosen alias has no separator and is either the one the path already
      holds or one nobody holds; recording it keeps aliases and paths one to one.
      No alias is found only for a new path without a final name. */
  lemma AliasIsStable(names: map<Name, Bytes>, path: Bytes)
    requires AliasesSound(names)
    ensures AliasFor(names, path).None? <==> path !in names.Values && FileName(path).None?
    ensures AliasFor(names, path).Some? ==>
              var a := AliasFor(names, path).value;
              && GoodName(a)
              && (if path in names.Values then a in names && names[a] == path else a !in names)
              && AliasesSound(names[a := path])
  {
    assert path in names.Values <==> HeldBy(names, path) != {} by {
      if path in names.Values {
        var a :| a in names && names[a] == path;
        assert a in HeldBy(names, path);
      }
    }
    if HeldBy(names, path) == {} && FileName(path).Some? {
      FileNameIsLast(path);
      var comps := Normals(Parse(path));
      CandidateGood(FileName(path).value, comps, FirstFree(names.Keys, FileName(path).value, comps));
    }
  }
}
