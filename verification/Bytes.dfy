/** Byte strings as the key-value store and the wire see them: lexicographic
    order, ordered key scans and big-endian numbers. */
module Bytes {
  newtype byte = x: int | 0 <= x < 256

  type Bytes = seq<byte>


  type u32 = n: nat | n < 0x1_0000_0000
  type u64 = n: nat | n < 0x1_0000_0000_0000_0000

  /** Reduction to 64 bits: unsigned arithmetic compiled without overflow checks. */
  function Mod64(n: int): u64 {
    n % 0x1_0000_0000_0000_0000
  }

  function WrapAdd(a: u64, b: u64): u64 {
    Mod64(a + b)
  }

  function WrapSub(a: u64, b: u64): u64 {
    Mod64(a - b)
  }

  // ---------------------------------------------------------------- order

  /** The store's key order: bytewise, a proper prefix first. */
  predicate LexLe(a: Bytes, b: Bytes) {
    if a == [] then true
    else if b == [] then false
    else if a[0] != b[0] then a[0] < b[0]
    else LexLe(a[1..], b[1..])
  }

  lemma LexTotal(a: Bytes, b: Bytes)
    ensures LexLe(a, b) || LexLe(b, a)
  {
    if a != [] && b != [] && a[0] == b[0] { LexTotal(a[1..], b[1..]); }
  }

  lemma {:induction false} LexAntisymmetric(a: Bytes, b: Bytes)
    requires LexLe(a, b) && LexLe(b, a)
    ensures a == b
  {
    if a != [] && b != [] {
      LexAntisymmetric(a[1..], b[1..]);
      assert a == [a[0]] + a[1..] && b == [b[0]] + b[1..];
    }
  }

  lemma {:induction false} LexTransitive(a: Bytes, b: Bytes, c: Bytes)
    requires LexLe(a, b) && LexLe(b, c)
    ensures LexLe(a, c)
  {
    if a != [] && b != [] && a[0] == b[0] && c != [] && b[0] == c[0] {
      LexTransitive(a[1..], b[1..], c[1..]);
    }
  }

  /** A prefix sorts before everything that extends it. */
  lemma {:induction false} PrefixFirst(p: Bytes, a: Bytes)
    requires p <= a
    ensures LexLe(p, a)
  {
    if p != [] { PrefixFirst(p[1..], a[1..]); }
  }

  /** A common prefix does not influence the order. */
  lemma {:induction false} LexCommonPrefix(p: Bytes, a: Bytes, b: Bytes)
    ensures LexLe(p + a, p + b) <==> LexLe(a, b)
  {
    if p == [] {
      assert p + a == a && p + b == b;
    } else {
      assert (p + a)[1..] == p[1..] + a && (p + b)[1..] == p[1..] + b;
      LexCommonPrefix(p[1..], a, b);
    }
  }

  // ---------------------------------------------------------------- scans

  predicate IsLeast(k: Bytes, s: set<Bytes>) {
    k in s && forall x | x in s :: LexLe(k, x)
  }

  lemma LeastExists(s: set<Bytes>)
    requires s != {}
    ensures exists k :: IsLeast(k, s)
  {
    var e :| e in s;
    var rest := s - {e};
    if rest == {} {
      LexTotal(e, e);
      assert s == {e};
      assert IsLeast(e, s);
    } else {
      LeastExists(rest);
      var k :| IsLeast(k, rest);
      LexTotal(e, k);
      LexTotal(e, e);
      var least := if LexLe(e, k) then e else k;
      forall x | x in s ensures LexLe(least, x) {
        if x != e && LexLe(e, k) { LexTransitive(e, k, x); }
      }
      assert IsLeast(least, s);
    }
  }

  function Least(s: set<Bytes>): (k: Bytes)
    requires s != {}
    ensures IsLeast(k, s)
  {
    LeastExists(s);
    assert forall k, l | IsLeast(k, s) && IsLeast(l, s) :: k == l by {
      forall k, l | IsLeast(k, s) && IsLeast(l, s) ensures k == l { LexAntisymmetric(k, l); }
    }
    var k :| k in s && IsLeast(k, s);
    k
  }

  predicate Ascending(ks: seq<Bytes>) {
    forall i, j | 0 <= i < j < |ks| :: LexLe(ks[i], ks[j]) && ks[i] != ks[j]
  }

  /** The keys in store order, each once. */
  function Sorted(s: set<Bytes>): (r: seq<Bytes>)
    ensures Ascending(r)
    ensures forall k :: k in r <==> k in s
  {
    if s == {} then []
    else
      var k := Least(s);
      var rest := Sorted(s - {k});
      assert forall x | x in rest :: x in s && x != k;
      [k] + rest
  }

  /** `scan_prefix`: the keys of a tree that extend `prefix`, in store order. */
  function ScanPrefix<V>(tree: map<Bytes, V>, prefix: Bytes): (r: seq<Bytes>)
    ensures Ascending(r)
    ensures forall k :: k in r <==> k in tree && prefix <= k
  {
    Sorted(set k | k in tree && prefix <= k)
  }

  /** Scanning for a key that is stored yields that key first. */
  lemma ScanFindsKeyFirst<V>(tree: map<Bytes, V>, key: Bytes)
    requires key in tree
    ensures |ScanPrefix(tree, key)| > 0 && ScanPrefix(tree, key)[0] == key
  {
    var r := ScanPrefix(tree, key);
    var i :| 0 <= i < |r| && r[i] == key;
    if i != 0 {
      PrefixFirst(key, r[0]);
      LexAntisymmetric(key, r[0]);
    }
  }

  // ----------------------------------------------------------- big endian

  function Pow256(w: nat): (r: nat)
    ensures r > 0
  {
    if w == 0 then 1 else 256 * Pow256(w - 1)
  }

  lemma Powers()
    ensures Pow256(1) == 256 && Pow256(2) == 0x1_0000
    ensures Pow256(4) == 0x1_0000_0000 && Pow256(8) == 0x1_0000_0000_0000_0000
  {
    assert Pow256(4) == 256 * (256 * (256 * (256 * Pow256(0))));
    assert Pow256(8) == 256 * (256 * (256 * (256 * Pow256(4))));
  }

  /** `to_be_bytes`: the low `w` bytes of `n`, most significant first. */
  function ToBE(n: nat, w: nat): (r: Bytes)
    ensures |r| == w
  {
    if w == 0 then [] else ToBE(n / 256, w - 1) + [(n % 256) as byte]
  }

  /** `from_be_bytes`. */
  function FromBE(s: Bytes): nat {
    if s == [] then 0 else 256 * FromBE(s[..|s| - 1]) + s[|s| - 1] as nat
  }

  lemma {:induction false} FromToBE(n: nat, w: nat)
    ensures FromBE(ToBE(n, w)) == n % Pow256(w)
  {
    if w != 0 {
      FromToBE(n / 256, w - 1);
      var r := ToBE(n, w);
      assert r[..|r| - 1] == ToBE(n / 256, w - 1);
      DivModStep(n, Pow256(w - 1));
    }
  }

  lemma DivModStep(n: nat, m: nat)
    requires m > 0
    ensures n % (256 * m) == 256 * ((n / 256) % m) + n % 256
  {
    var q, r := n / 256, n % 256;
    var a, b := q / m, q % m;
    assert n == 256 * (a * m + b) + r;
    assert n == a * (256 * m) + (256 * b + r);
    DivisionUnique(n, 256 * m, a, 256 * b + r);
  }

  lemma AtLeastOneMultiple(k: nat, d: nat)
    requires k >= 1
    ensures k * d >= d
  {
    assert k * d == d + (k - 1) * d;
  }

  lemma DivisionUnique(n: nat, d: nat, q: nat, r: nat)
    requires d > 0 && n == q * d + r && r < d
    ensures n % d == r
  {
    var q', r' := n / d, n % d;
    assert n == q' * d + r';
    assert (q - q') * d == q * d - q' * d == r' - r;
    assert (q' - q) * d == r - r';
    if q > q' {
      AtLeastOneMultiple(q - q', d);
    } else if q < q' {
      AtLeastOneMultiple(q' - q, d);
    }
  }

  lemma {:induction false} ToFromBE(s: Bytes)
    ensures ToBE(FromBE(s), |s|) == s
    ensures FromBE(s) < Pow256(|s|)
  {
    if s != [] { ToFromBE(s[..|s| - 1]); }
  }

  /** Big-endian keys sort as the numbers they hold. */
  lemma {:induction false} BigEndianOrder(s: Bytes, t: Bytes)
    requires |s| == |t|
    ensures LexLe(s, t) <==> FromBE(s) <= FromBE(t)
  {
    if s != [] {
      var n := |s| - 1;
      BigEndianOrder(s[..n], t[..n]);
      LexLastByte(s, t);
      if FromBE(s[..n]) == FromBE(t[..n]) {
        ToFromBE(s[..n]);
        ToFromBE(t[..n]);
      }
    }
  }

  lemma {:induction false} LexLastByte(s: Bytes, t: Bytes)
    requires |s| == |t| > 0
    ensures var n := |s| - 1;
            LexLe(s, t) <==> if s[..n] == t[..n] then s[n] <= t[n] else LexLe(s[..n], t[..n])
  {
    var n := |s| - 1;
    if n > 0 {
      LexLastByte(s[1..], t[1..]);
      assert s[1..][..n - 1] == s[..n][1..] && t[1..][..n - 1] == t[..n][1..];
      assert s[..n] == [s[0]] + s[..n][1..] && t[..n] == [t[0]] + t[..n][1..];
    }
  }
}
