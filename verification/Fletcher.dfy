/** The two-byte running sum both GPS protocols use: its closed form, and exactly which alterations of
    one or two bytes it misses. */
module Fletcher {

  type byte = x: int | 0 <= x < 256

  datatype Ck = Ck(a: byte, b: byte)

  const ZERO := Ck(0, 0)

  function Add(ck: Ck, x: byte): Ck {
    var a := (ck.a + x) % 256;
    Ck(a, (ck.b + a) % 256)
  }

  function AddAll(ck: Ck, s: seq<byte>): Ck
    decreases |s|
  {
    if s == [] then ck else AddAll(Add(ck, s[0]), s[1..])
  }

  lemma {:induction false} AddAllConcat(ck: Ck, s: seq<byte>, t: seq<byte>)
    ensures AddAll(ck, s + t) == AddAll(AddAll(ck, s), t)
    decreases |s|
  {
    if s == [] {
      assert s + t == t;
    } else {
      assert (s + t)[0] == s[0] && (s + t)[1..] == s[1..] + t;
      AddAllConcat(Add(ck, s[0]), s[1..], t);
    }
  }

  lemma AddLast(ck: Ck, s: seq<byte>, k: nat)
    requires k < |s|
    ensures AddAll(ck, s[..k + 1]) == Add(AddAll(ck, s[..k]), s[k])
  {
    assert s[..k + 1] == s[..k] + [s[k]];
    AddAllConcat(ck, s[..k], [s[k]]);
    assert AddAll(AddAll(ck, s[..k]), [s[k]]) == AddAll(Add(AddAll(ck, s[..k]), s[k]), []);
  }

  // ----- closed form

  function Sum(s: seq<byte>): int {
    if s == [] then 0 else s[0] + Sum(s[1..])
  }

  /** The first byte counts |s| times, the last one once. */
  function Weighted(s: seq<byte>): int {
    if s == [] then 0 else |s| * s[0] + Weighted(s[1..])
  }

  predicate Cong(x: int, y: int) {
    (x - y) % 256 == 0
  }

  lemma ModPlusMultiple(x: int, k: int)
    ensures (x + 256 * k) % 256 == x % 256
  {
  }

  lemma CongMod(x: int, y: int)
    ensures Cong(x, y) <==> x % 256 == y % 256
  {
  }

  lemma FoldStep(a: int, b: int, x: int, n: int, w: int)
    ensures var a1 := (a + x) % 256;
            ((b + a1) % 256 + (n - 1) * a1 + w) % 256 == (b + n * a + (n * x + w)) % 256
  {
    var a1 := (a + x) % 256;
    var k := (a + x) / 256;
    var b1, j := (b + a1) % 256, (b + a1) / 256;
    assert a1 == a + x - 256 * k && b1 == b + a1 - 256 * j;
    assert (n - 1) * a1 == n * a1 - a1;
    assert n * a1 == n * (a + x - 256 * k);
    assert n * (a + x - 256 * k) == n * a + n * x - 256 * (n * k);
    assert b1 + (n - 1) * a1 + w == b + n * a + (n * x + w) + 256 * (-(n * k) - j);
    ModPlusMultiple(b + n * a + (n * x + w), -(n * k) - j);
  }

  lemma PlainStep(a: int, x: int, t: int)
    ensures ((a + x) % 256 + t) % 256 == (a + (x + t)) % 256
  {
    ModPlusMultiple(a + x + t, -((a + x) / 256));
  }

  lemma AddStep(ck: Ck, x: byte, n: nat, sum: int, weighted: int)
    ensures var ck1 := Add(ck, x);
            (ck1.a + sum) % 256 == (ck.a + (x + sum)) % 256 &&
            (ck1.b + n * ck1.a + weighted) % 256 == (ck.b + (n + 1) * ck.a + ((n + 1) * x + weighted)) % 256
  {
    PlainStep(ck.a, x, sum);
    FoldStep(ck.a, ck.b, x, n + 1, weighted);
  }

  lemma {:induction false} AddAllIs(ck: Ck, s: seq<byte>)
    ensures AddAll(ck, s).a == (ck.a + Sum(s)) % 256
    ensures AddAll(ck, s).b == (ck.b + |s| * ck.a + Weighted(s)) % 256
    decreases |s|
  {
    hide Add;
    if s != [] {
      AddAllIs(Add(ck, s[0]), s[1..]);
      AddStep(ck, s[0], |s[1..]|, Sum(s[1..]), Weighted(s[1..]));
    }
  }

  /** From zero the two sums are the plain and the weighted sum of the bytes. */
  lemma ClosedForm(s: seq<byte>)
    ensures AddAll(ZERO, s) == Ck(Sum(s) % 256, Weighted(s) % 256)
  {
    AddAllIs(ZERO, s);
  }

  // ----- what an alteration does

  lemma Difference(n: int, v: int, x: int)
    ensures n * v == n * x + n * (v - x)
  {
  }

  lemma {:induction false} SumUpdate(s: seq<byte>, i: nat, v: byte)
    requires i < |s|
    ensures Sum(s[i := v]) == Sum(s) + (v - s[i])
    ensures Weighted(s[i := v]) == Weighted(s) + (|s| - i) * (v - s[i])
    decreases |s|
  {
    if i == 0 {
      assert s[0 := v][1..] == s[1..];
      Difference(|s|, v, s[0]);
    } else {
      assert s[i := v][1..] == s[1..][i - 1 := v];
      SumUpdate(s[1..], i - 1, v);
    }
  }

  predicate Missed(s: seq<byte>, t: seq<byte>) {
    AddAll(ZERO, s) == AddAll(ZERO, t)
  }

  lemma MissedIff(s: seq<byte>, t: seq<byte>)
    ensures Missed(s, t) <==> Cong(Sum(t), Sum(s)) && Cong(Weighted(t), Weighted(s))
  {
    ClosedForm(s);
    ClosedForm(t);
    CongMod(Sum(t), Sum(s));
    CongMod(Weighted(t), Weighted(s));
  }

  /** A single altered byte is always noticed. */
  lemma OneAlteredByteNoticed(s: seq<byte>, i: nat, v: byte)
    requires i < |s| && v != s[i]
    ensures !Missed(s, s[i := v])
  {
    SumUpdate(s, i, v);
    MissedIff(s, s[i := v]);
  }

  lemma WeightedDifference(n: int, i: int, j: int, d: int, e: int)
    requires (d + e) % 256 == 0
    ensures ((n - i) * d + (n - j) * e) % 256 == ((j - i) * d) % 256
  {
    var k := (d + e) / 256;
    assert e == 256 * k - d;
    assert (n - j) * e == (n - j) * (256 * k - d);
    assert (n - j) * (256 * k - d) == 256 * ((n - j) * k) - (n - j) * d;
    assert (n - i) * d - (n - j) * d == (j - i) * d;
    ModPlusMultiple((j - i) * d, (n - j) * k);
  }

  lemma SumsCongruentIff(n: int, i: int, j: int, d: int, e: int, sum: int, weighted: int)
    ensures Cong(sum + d + e, sum) && Cong(weighted + (n - i) * d + (n - j) * e, weighted) <==>
            (d + e) % 256 == 0 && ((j - i) * d) % 256 == 0
  {
    if (d + e) % 256 == 0 {
      WeightedDifference(n, i, j, d, e);
    }
  }

  /** Two altered bytes are missed exactly when the changes cancel and the distance times the change is a
      multiple of 256. */
  lemma TwoAlteredBytesMissedIff(s: seq<byte>, i: nat, v: byte, j: nat, u: byte)
    requires i < j < |s|
    ensures Missed(s, s[i := v][j := u]) <==>
            (v - s[i] + (u - s[j])) % 256 == 0 && ((j - i) * (v - s[i])) % 256 == 0
  {
    hide Missed, Sum, Weighted, Cong;
    var d, e := v - s[i], u - s[j];
    SumUpdate(s, i, v);
    SumUpdate(s[i := v], j, u);
    MissedIff(s, s[i := v][j := u]);
    SumsCongruentIff(|s|, i, j, d, e, Sum(s), Weighted(s));
  }

  function Pow2(p: nat): nat {
    if p == 0 then 1 else 2 * Pow2(p - 1)
  }

  /** An odd factor can be cancelled modulo a power of two. */
  lemma {:induction false} OddCancels(k: int, d: int, q: int, p: nat) returns (r: int)
    requires k % 2 == 1 && k * d == Pow2(p) * q
    ensures d == Pow2(p) * r
    decreases p
  {
    if p == 0 {
      r := d;
    } else {
      var h, m := k / 2, Pow2(p - 1);
      assert k == 2 * h + 1;
      assert k * d == 2 * (h * d) + d;
      assert Pow2(p) * q == 2 * (m * q);
      var e := m * q - h * d;
      assert d == 2 * e;
      assert k * d == k * (2 * e) == 2 * (k * e);
      r := OddCancels(k, e, q, p - 1);
      assert d == 2 * (m * r) == Pow2(p) * r;
    }
  }

  lemma OddMultiple(k: int, d: int)
    requires k % 2 == 1 && (k * d) % 256 == 0
    ensures d % 256 == 0
  {
    var q := (k * d) / 256;
    assert Pow2(8) == 256;
    assert k * d == Pow2(8) * q;
    var r := OddCancels(k, d, q, 8);
    assert d == 256 * r;
  }

  /** Two altered bytes at an odd distance are always noticed. */
  lemma OddDistanceNoticed(s: seq<byte>, i: nat, v: byte, j: nat, u: byte)
    requires i < j < |s| && (j - i) % 2 == 1 && v != s[i]
    ensures !Missed(s, s[i := v][j := u])
  {
    hide Missed;
    TwoAlteredBytesMissedIff(s, i, v, j, u);
    if ((j - i) * (v - s[i])) % 256 == 0 {
      OddMultiple(j - i, v - s[i]);
      assert false;
    }
  }

  /** `t` is `s` with byte `i` altered, and perhaps byte `j`, which is at an odd distance from it. */
  ghost predicate AlteredAt(s: seq<byte>, t: seq<byte>, i: int, j: int) {
    |t| == |s| && 0 <= i < |s| && t[i] != s[i] && (j - i) % 2 == 1 &&
    forall k :: 0 <= k < |s| && k != i && k != j ==> t[k] == s[k]
  }

  /** One byte altered, or two at an odd distance. */
  ghost predicate Corrupted(s: seq<byte>, t: seq<byte>) {
    exists i, j :: AlteredAt(s, t, i, j)
  }

  lemma CorruptionNoticed(s: seq<byte>, t: seq<byte>)
    requires Corrupted(s, t)
    ensures !Missed(s, t)
  {
    var i, j :| AlteredAt(s, t, i, j);
    if !(0 <= j < |s|) || t[j] == s[j] {
      OneAlteredByteNoticed(s, i, t[i]);
      assert t == s[i := t[i]];
    } else {
      var a, b := if i < j then i else j, if i < j then j else i;
      OddDistanceNoticed(s, a, t[a], b, t[b]);
      assert t == s[a := t[a]][b := t[b]];
    }
  }

  /** What is in front does not matter. */
  lemma CorruptedBehind(h: seq<byte>, s: seq<byte>, t: seq<byte>)
    requires Corrupted(s, t)
    ensures Corrupted(h + s, h + t)
  {
    var i, j :| AlteredAt(s, t, i, j);
    assert AlteredAt(h + s, h + t, |h| + i, |h| + j);
  }
}
