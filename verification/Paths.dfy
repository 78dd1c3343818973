/** Slash-separated paths as byte strings, and the component view that the
    component-based filters of the program take of them. */
module Paths {
  import opened Bytes

  datatype Option<+T> = None | Some(value: T)

  const SEP: byte := 47
  const DOT: byte := 46

  type Name = Bytes

  /** A name a directory listing can contain. */
  predicate GoodName(n: Name) {
    n != [] && SEP !in n && n != [DOT] && n != [DOT, DOT]
  }

  /** The pieces between separators; never empty. */
  function Split(p: Bytes): (r: seq<Name>)
    ensures |r| > 0
    ensures forall n | n in r :: SEP !in n
  {
    if p == [] then [[]]
    else
      var r := Split(p[1..]);
      if p[0] == SEP then [[]] + r else [[p[0]] + r[0]] + r[1..]
  }

  function Join(cs: seq<Name>): Bytes {
    if cs == [] then []
    else if |cs| == 1 then cs[0]
    else cs[0] + [SEP] + Join(cs[1..])
  }

  /** The components of a path; the empty path has none. */
  function Components(p: Bytes): seq<Name> {
    if p == [] then [] else Split(p)
  }

  predicate WellFormed(p: Bytes) {
    forall n | n in Split(p) :: GoodName(n)
  }

  /** `f` lies strictly below directory `d`; the empty path is the root. */
  predicate Below(d: Bytes, f: Bytes) {
    if d == [] then f != [] else d + [SEP] <= f
  }

  /** The directories that contain `f`, innermost first, ending with the root:
      the ancestors of its parent. */
  function Ancestors(f: Bytes): seq<Bytes> {
    var cs := Split(f);
    seq(|cs|, i requires 0 <= i < |cs| => Join(cs[..|cs| - 1 - i]))
  }

  // ------------------------------------------------- splitting and joining

  lemma {:induction false} SplitAppend(a: Bytes, b: Bytes)
    ensures Split(a + [SEP] + b) == Split(a) + Split(b)
  {
    var whole := a + [SEP] + b;
    if a == [] {
      assert whole[1..] == b;
    } else {
      assert whole[1..] == a[1..] + [SEP] + b;
      SplitAppend(a[1..], b);
    }
  }

  lemma {:induction false} JoinCons(c: byte, cs: seq<Name>)
    requires |cs| > 0
    ensures Join([[c] + cs[0]] + cs[1..]) == [c] + Join(cs)
  {
    var whole := [[c] + cs[0]] + cs[1..];
    if |cs| > 1 { assert whole[1..] == cs[1..]; }
  }

  lemma {:induction false} JoinSplit(p: Bytes)
    ensures Join(Split(p)) == p
  {
    if p != [] {
      JoinSplit(p[1..]);
      var r := Split(p[1..]);
      assert p == [p[0]] + p[1..];
      if p[0] == SEP {
        assert ([[]] + r)[1..] == r;
      } else {
        JoinCons(p[0], r);
      }
    }
  }

  lemma {:induction false} SplitSingle(n: Name)
    requires SEP !in n
    ensures Split(n) == [n]
  {
    if n != [] {
      SplitSingle(n[1..]);
      assert n == [n[0]] + n[1..];
    }
  }

  lemma {:induction false} SplitJoin(cs: seq<Name>)
    requires |cs| > 0
    requires forall n | n in cs :: SEP !in n
    ensures Split(Join(cs)) == cs
  {
    SplitSingle(cs[0]);
    if |cs| == 1 {
      assert cs == [cs[0]];
    } else {
      SplitJoin(cs[1..]);
      SplitAppend(cs[0], Join(cs[1..]));
    }
  }

  lemma {:induction false} JoinAppend(a: seq<Name>, b: seq<Name>)
    requires |a| > 0 && |b| > 0
    ensures Join(a + b) == Join(a) + [SEP] + Join(b)
  {
    if |a| == 1 {
      assert (a + b)[1..] == b;
    } else {
      assert (a + b)[1..] == a[1..] + b;
      JoinAppend(a[1..], b);
    }
  }

  // ------------------------------------------- bytes agree with components

  /** The byte-prefix test with a trailing separator is exactly the proper
      prefix test on components. */
  lemma BelowIsComponentPrefix(d: Bytes, f: Bytes)
    requires f != []
    ensures Below(d, f) <==> Components(d) < Components(f)
  {
    if d != [] {
      if Below(d, f) {
        var b := f[|d| + 1..];
        assert f == d + [SEP] + b;
        SplitAppend(d, b);
      }
      if Components(d) < Components(f) {
        var rest := Split(f)[|Split(d)|..];
        assert Split(f) == Split(d) + rest;
        JoinAppend(Split(d), rest);
        JoinSplit(d);
        JoinSplit(f);
      }
    }
  }

  /** Two paths with the same components are the same path. */
  lemma ComponentsInjective(p: Bytes, q: Bytes)
    requires Components(p) == Components(q)
    ensures p == q
  {
    JoinSplit(p);
    JoinSplit(q);
  }

  lemma BelowTransitive(c: Bytes, d: Bytes, f: Bytes)
    requires Below(c, d) && Below(d, f)
    ensures Below(c, f)
  {
  }

  lemma AncestorAt(f: Bytes, i: nat)
    requires WellFormed(f) && i < |Split(f)|
    ensures Components(Ancestors(f)[i]) == Split(f)[..|Split(f)| - 1 - i]
  {
    var cs := Split(f)[..|Split(f)| - 1 - i];
    assert Ancestors(f)[i] == Join(cs);
    assert GoodName(Split(f)[0]) by { assert Split(f)[0] in Split(f); }
    if cs != [] {
      forall n | n in cs ensures SEP !in n { assert n in Split(f); }
      SplitJoin(cs);
      assert cs[0] == Split(f)[0] != [];
      assert Join(cs) != [];
    }
  }

  lemma AncestorIff(f: Bytes, d: Bytes)
    requires WellFormed(f)
    ensures d in Ancestors(f) <==> Below(d, f)
  {
    hide Split, Below, Join;
    var cs := Split(f);
    assert cs[0] in cs && f != [] by { NotRoot(f); }
    BelowIsComponentPrefix(d, f);
    if Below(d, f) {
      var i := |cs| - 1 - |Components(d)|;
      AncestorAt(f, i);
      assert Components(d) == cs[..|cs| - 1 - i];
      ComponentsInjective(d, Ancestors(f)[i]);
    }
    if d in Ancestors(f) {
      var i :| 0 <= i < |cs| && Ancestors(f)[i] == d;
      AncestorAt(f, i);
    }
  }

  lemma NotRoot(f: Bytes)
    requires WellFormed(f)
    ensures Split(f)[0] in Split(f) && f != []
  {
    assert Split(f)[0] in Split(f);
  }

  /** The containing directories of `f` are those it lies below, each once. */
  lemma AncestorsAreAbove(f: Bytes)
    requires WellFormed(f)
    ensures forall d :: d in Ancestors(f) <==> Below(d, f)
    ensures forall i, j | 0 <= i < j < |Ancestors(f)| :: Ancestors(f)[i] != Ancestors(f)[j]
  {
    hide Split, Below, Components;
    forall d ensures d in Ancestors(f) <==> Below(d, f) { AncestorIff(f, d); }
    forall i, j | 0 <= i < j < |Ancestors(f)| ensures Ancestors(f)[i] != Ancestors(f)[j] {
      AncestorAt(f, i);
      AncestorAt(f, j);
      assert |Components(Ancestors(f)[i])| == |Split(f)| - 1 - i;
    }
  }

  // ------------------------------------------- components of foreign paths

  /** What `Path::components` yields on Unix. */
  datatype Component = RootDir | CurDir | ParentDir | Normal(name: Name)

  /** Empty pieces and single dots vanish after the first position. */
  function Inner(pieces: seq<Name>): (r: seq<Component>)
    ensures forall c | c in r ::
              c.ParentDir? || (c.Normal? && c.name in pieces && c.name != [] && c.name != [DOT] && c.name != [DOT, DOT])
  {
    if pieces == [] then []
    else
      var rest := Inner(pieces[1..]);
      if pieces[0] == [] || pieces[0] == [DOT] then rest
      else if pieces[0] == [DOT, DOT] then [ParentDir] + rest
      else [Normal(pieces[0])] + rest
  }

  function Parse(p: Bytes): (r: seq<Component>)
    ensures forall c | c in r && c.Normal? :: GoodName(c.name)
  {
    if p == [] then []
    else
      var pieces := Split(p);
      if p[0] == SEP then [RootDir] + Inner(pieces)
      else if pieces[0] == [DOT] then [CurDir] + Inner(pieces[1..])
      else Inner(pieces)
  }

  function Normals(cs: seq<Component>): (r: seq<Name>)
    ensures forall n | n in r :: Normal(n) in cs
  {
    if cs == [] then []
    else if cs[0].Normal? then [cs[0].name] + Normals(cs[1..])
    else Normals(cs[1..])
  }

  /** `file_name`: the last component when it is a normal one. */
  function FileName(p: Bytes): (r: Option<Name>)
    ensures r.Some? ==> GoodName(r.value)
  {
    var cs := Parse(p);
    if cs != [] && cs[|cs| - 1].Normal? then Some(cs[|cs| - 1].name) else None
  }

  ghost function SafeRelative(p: Bytes): Option<seq<Name>> {
    if forall c | c in Parse(p) :: c.Normal? then Some(Normals(Parse(p))) else None
  }

  // ---------------------------------------- what the component view comes to

  /** The pieces that name something: neither empty nor a single dot. */
  function Kept(pieces: seq<Name>): seq<Name> {
    if pieces == [] then []
    else (if |pieces[0]| == 0 || pieces[0] == [DOT] then [] else [pieces[0]]) + Kept(pieces[1..])
  }

  lemma {:induction false} InnerIsKept(pieces: seq<Name>)
    ensures |Inner(pieces)| == |Kept(pieces)|
    ensures forall i | 0 <= i < |Kept(pieces)| ::
              Inner(pieces)[i] == if Kept(pieces)[i] == [DOT, DOT] then ParentDir else Normal(Kept(pieces)[i])
  {
    if pieces != [] {
      var cs, kept := Inner(pieces[1..]), Kept(pieces[1..]);
      InnerIsKept(pieces[1..]);
      if Inner(pieces) != cs {
        forall i | 0 <= i < |Kept(pieces)|
          ensures Inner(pieces)[i] == if Kept(pieces)[i] == [DOT, DOT] then ParentDir else Normal(Kept(pieces)[i])
        {
          if i > 0 { assert Inner(pieces)[i] == cs[i - 1] && Kept(pieces)[i] == kept[i - 1]; }
        }
      } else {
        assert Kept(pieces) == kept;
      }
    }
  }

  lemma {:induction false} KeptHolds(pieces: seq<Name>, n: Name)
    ensures n in Kept(pieces) <==> n in pieces && n != [] && n != [DOT]
  {
    if pieces != [] { KeptHolds(pieces[1..], n); }
  }

  /** What a path begins with, before its inner components. */
  function Opening(p: Bytes): seq<Component> {
    if p == [] then [] else if p[0] == SEP then [RootDir] else if Split(p)[0] == [DOT] then [CurDir] else []
  }

  lemma ParseIs(p: Bytes)
    ensures Parse(p) == Opening(p) + Inner(Split(p))
  {
    if p != [] {
      assert Split(p) == [Split(p)[0]] + Split(p)[1..];
    } else {
      assert Split(p)[1..] == [];
    }
  }

  lemma {:induction false} NormalsOf(cs: seq<Component>, names: seq<Name>)
    requires |cs| == |names| && forall i | 0 <= i < |cs| :: cs[i] == Normal(names[i])
    ensures Normals(cs) == names
  {
    if cs != [] {
      NormalsOf(cs[1..], names[1..]);
      assert names == [names[0]] + names[1..];
    }
  }

  /** Relative, not beginning with the current directory, and never going up. */
  predicate StaysInside(p: Bytes) {
    p == [] || (p[0] != SEP && Split(p)[0] != [DOT] && [DOT, DOT] !in Split(p))
  }

  /** A peer's path is accepted if and only if it stays inside; what is accepted are its
      named pieces. */
  lemma SafeIff(p: Bytes)
    ensures SafeRelative(p).Some? <==> StaysInside(p)
    ensures SafeRelative(p).Some? ==> SafeRelative(p).value == Kept(Split(p))
  {
    hide Parse, Split, Kept, Inner, Normals;
    ParseIs(p);
    KeptHolds(Split(p), [DOT, DOT]);
    if Opening(p) != [] {
      assert Parse(p)[0] in Parse(p);
    } else {
      assert Parse(p) == Inner(Split(p));
      NormalIff(Split(p));
      SplitEmpty();
    }
  }

  lemma SplitEmpty()
    ensures Split([]) == [[]]
  {
  }

  lemma NormalIff(pieces: seq<Name>)
    ensures (forall c | c in Inner(pieces) :: c.Normal?) <==> [DOT, DOT] !in Kept(pieces)
    ensures [DOT, DOT] !in Kept(pieces) ==> Normals(Inner(pieces)) == Kept(pieces)
  {
    hide Kept, Inner, Normals;
    var cs, kept := Inner(pieces), Kept(pieces);
    InnerIsKept(pieces);
    if [DOT, DOT] in kept {
      var i :| 0 <= i < |kept| && kept[i] == [DOT, DOT];
      assert cs[i] in cs;
    } else {
      NormalsOf(cs, kept);
    }
  }

  /** The last named piece, unless there is none or it goes up. */
  lemma FileNameIs(p: Bytes)
    ensures var kept := Kept(Split(p));
            FileName(p) == if kept == [] || kept[|kept| - 1] == [DOT, DOT] then None else Some(kept[|kept| - 1])
  {
    ParseIs(p);
    InnerIsKept(Split(p));
  }

  lemma {:induction false} InnerAppend(a: seq<Name>, b: seq<Name>)
    ensures Inner(a + b) == Inner(a) + Inner(b)
  {
    if a == [] {
      assert a + b == b;
    } else {
      assert (a + b)[1..] == a[1..] + b;
      InnerAppend(a[1..], b);
    }
  }

  lemma {:induction false} NormalsSnoc(cs: seq<Component>, part: Name)
    ensures Normals(cs + [Normal(part)]) == Normals(cs) + [part]
  {
    if cs == [] {
      assert cs + [Normal(part)] == [Normal(part)] && [Normal(part)][1..] == [];
    } else {
      assert (cs + [Normal(part)])[1..] == cs[1..] + [Normal(part)];
      NormalsSnoc(cs[1..], part);
    }
  }

  /** Accept a peer-provided path only if every component is a normal one. An
      accepted path has only names that stay inside the directory it is joined to. */
  method SafeRemoteRelativePath(path: Bytes) returns (r: Option<seq<Name>>)
    ensures r == SafeRelative(path)
    ensures r.Some? ==> forall n | n in r.value :: GoodName(n)
    ensures r.Some? <==> StaysInside(path)
    ensures r.Some? ==> r.value == Kept(Split(path))
  {
    hide Parse, Split, Kept, StaysInside;
    SafeIff(path);
    var relative: seq<Name> := [];
    var cs := Parse(path);
    for i := 0 to |cs|
      invariant forall j | 0 <= j < i :: cs[j].Normal?
      invariant relative == Normals(cs[..i])
    {
      match cs[i]
      case Normal(part) =>
        NormalsSnoc(cs[..i], part);
        assert cs[..i + 1] == cs[..i] + [cs[i]];
        relative := relative + [part];
      case _ =>
        assert cs[i] in cs;
        return None;
    }
    assert cs[..|cs|] == cs;
    return Some(relative);
  }

  lemma {:induction false} InnerOfGoodNames(ns: seq<Name>)
    requires forall n | n in ns :: GoodName(n)
    ensures Normals(Inner(ns)) == ns
    ensures forall c | c in Inner(ns) :: c.Normal?
    ensures ns != [] ==> Inner(ns) != [] && Inner(ns)[|Inner(ns)| - 1] == Normal(ns[|ns| - 1])
  {
    if ns != [] {
      var rest := ns[1..];
      InnerOfGoodNames(rest);
      assert ns[0] in ns;
      var r := Inner(ns);
      assert r == [Normal(ns[0])] + Inner(rest);
      assert r[1..] == Inner(rest);
      assert ns == [ns[0]] + rest;
      if rest == [] { assert Inner(rest) == []; }
    }
  }

  /** An index path, or the root, is accepted and keeps its components. */
  lemma WellFormedIsSafe(p: Bytes)
    requires p == [] || WellFormed(p)
    ensures SafeRelative(p) == Some(Components(p))
  {
    if p != [] {
      assert Split(p)[0] in Split(p);
      InnerOfGoodNames(Split(p));
      assert p[0] != SEP;
    }
  }

  predicate WithinRequest(requested: seq<Name>, entry: seq<Name>) {
    requested == [] || requested <= entry
  }

  /** The component filter keeps an index path exactly when it is the requested
      path or lies below it; siblings that share a byte prefix are dropped. */
  lemma WithinIsAtOrBelow(requested: Bytes, entry: Bytes)
    ensures WithinRequest(Components(requested), Components(entry))
      <==> entry == requested || Below(requested, entry) || requested == []
  {
    if requested != [] {
      if entry != [] { BelowIsComponentPrefix(requested, entry); }
      if Components(requested) == Components(entry) { ComponentsInjective(requested, entry); }
    }
  }
}
