/** Shared vocabulary: optional values and the JavaScript numeric idioms the
    designer relies on (`Math.round`, `Math.min`/`Math.max` clamps and the
    `value || fallback` default for numbers). */
module Common {

  /** An optional value: `undefined`/`null` in the source is `None`. */
  datatype Option<+T> = None | Some(value: T) {
    function GetOr(default: T): T {
      match this
      case Some(v) => v
      case None => default
    }
  }

  /** A strictly positive real, used for measured container sizes. */
  type PosReal = r: real | r > 0.0 witness 1.0

  function Min(a: real, b: real): (r: real)
    ensures r <= a && r <= b
    ensures r == a || r == b
  {
    if a <= b then a else b
  }

  function Max(a: real, b: real): (r: real)
    ensures r >= a && r >= b
    ensures r == a || r == b
  {
    if a >= b then a else b
  }

  /** `Math.max(lo, Math.min(hi, v))`: the lower bound wins when the
      interval is empty. */
  function ClampLow(v: real, lo: real, hi: real): (r: real)
    ensures r >= lo
    ensures lo <= hi ==> r <= hi
    ensures lo <= v <= hi ==> r == v
    ensures v < lo ==> r == lo
    ensures lo <= hi < v ==> r == hi
  {
    Max(lo, Min(hi, v))
  }

  /** `Math.round`: the nearest integer, halves rounded up. */
  function Round(x: real): (r: int)
    ensures x - 0.5 < r as real <= x + 0.5
  {
    (x + 0.5).Floor
  }

  /** A real with no fractional part, as `Math.round` produces. */
  predicate IsInt(x: real) {
    x == x.Floor as real
  }

  /** Rounding never leaves an interval with integer end points. */
  lemma RoundWithin(x: real, lo: int, hi: int)
    requires lo as real <= x <= hi as real
    ensures lo <= Round(x) <= hi
  {
  }

  /** Rounding an integer gives it back. */
  lemma RoundInt(n: int)
    ensures Round(n as real) == n
  {
  }

  lemma RoundWhole(x: real)
    requires IsInt(x)
    ensures Round(x) as real == x
  {
    RoundInt(x.Floor);
  }

  /** JavaScript truthiness of a possibly absent number: `undefined`, `0`
      (and `NaN`, which `None` also stands for) are falsy. */
  predicate Truthy(o: Option<real>) {
    o.Some? && o.value != 0.0
  }

  /** `o || d` for a possibly absent number. */
  function OrDefault(o: Option<real>, d: real): (r: real)
    ensures Truthy(o) ==> r == o.value
    ensures !Truthy(o) ==> r == d
  {
    if Truthy(o) then o.value else d
  }

  /** `parseInt(text) || d`: the parse result is `None` for `NaN`. */
  function IntOr(parsed: Option<int>, d: int): (r: int)
    ensures parsed.Some? && parsed.value != 0 ==> r == parsed.value
    ensures parsed.None? || parsed.value == 0 ==> r == d
  {
    if parsed.Some? && parsed.value != 0 then parsed.value else d
  }

  /** `parseFloat(text) || d`. */
  function RealOr(parsed: Option<real>, d: real): (r: real)
    ensures parsed.Some? && parsed.value != 0.0 ==> r == parsed.value
    ensures parsed.None? || parsed.value == 0.0 ==> r == d
  {
    if parsed.Some? && parsed.value != 0.0 then parsed.value else d
  }

  /** The position of the first occurrence of a member. */
  function FirstPos<T(==)>(s: seq<T>, x: T): (k: nat)
    requires x in s
    ensures k < |s| && s[k] == x && x !in s[..k]
  {
    if s[0] == x then 0
    else
      var k := 1 + FirstPos(s[1..], x);
      assert s[..k] == [s[0]] + s[1..][..k - 1];
      k
  }

  /** The first occurrence is the one position holding the member with no
      earlier copy. */
  lemma FirstPosUnique<T>(s: seq<T>, x: T, k: nat)
    requires k < |s| && s[k] == x && x !in s[..k]
    ensures FirstPos(s, x) == k
  {
    var f := FirstPos(s, x);
    assert forall j :: 0 <= j < k ==> s[..k][j] == s[j];
    assert forall j :: 0 <= j < f ==> s[..f][j] == s[j];
  }

  /** A member of a prefix is first found at the same place in the whole. */
  lemma FirstPosInPrefix<T>(s: seq<T>, n: nat, x: T)
    requires n <= |s| && x in s[..n]
    ensures FirstPos(s, x) == FirstPos(s[..n], x)
  {
    var b := FirstPos(s[..n], x);
    assert s[..n][..b] == s[..b];
    FirstPosUnique(s, x, b);
  }

  /** The distinct members of a sequence in the order of their first
      occurrence, as `[...new Set(s)]` gives them. */
  function Distinct<T(==,!new)>(s: seq<T>): (r: seq<T>)
    ensures forall x :: x in r <==> x in s
    ensures forall i, j :: 0 <= i < j < |r| ==> r[i] != r[j]
    ensures forall i, j :: 0 <= i < j < |r| ==> FirstPos(s, r[i]) < FirstPos(s, r[j])
  {
    if s == [] then []
    else
      var init := s[..|s| - 1];
      var last := s[|s| - 1];
      assert s == init + [last];
      var d := Distinct(init);
      forall x | x in init ensures FirstPos(s, x) == FirstPos(init, x) {
        FirstPosInPrefix(s, |s| - 1, x);
      }
      if last in init then d
      else
        assert FirstPos(s, last) == |s| - 1;
        d + [last]
  }
}
