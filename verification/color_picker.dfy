/** The colour picker of the preview: one swatch per catalogue colour, a
    check mark on the selected ones whose contrast follows `isLightColor`,
    and nothing at all while the colour list is empty. `isLightColor` reads
    the three channels with `parseInt(.., 16)`, modelled here with its
    prefix semantics. */
module ColorPicker {
  import opened Common
  import opened Types
  import Strings

  /** `s.indexOf(c)` as an optional index. */
  function IndexOf(s: string, c: char): (k: Option<nat>)
    ensures k.None? <==> c !in s
    ensures k.Some? ==> k.value < |s| && s[k.value] == c && c !in s[..k.value]
  {
    if s == [] then None
    else if s[0] == c then Some(0)
    else
      var k := IndexOf(s[1..], c);
      if k.None? then None
      else
        assert s[..k.value + 1] == [s[0]] + s[1..][..k.value];
        Some(k.value + 1)
  }

  /** `s.replace(c, "")` with a string pattern: only the first occurrence
      goes. */
  function RemoveFirst(s: string, c: char): (r: string)
    ensures c !in s ==> r == s
    ensures c in s ==> |r| == |s| - 1
    ensures c in s ==> exists i :: 0 <= i < |s| && s[i] == c && c !in s[..i] && r == s[..i] + s[i + 1..]
  {
    match IndexOf(s, c)
    case None => s
    case Some(i) => s[..i] + s[i + 1..]
  }

  /** A leading occurrence is the one removed. */
  lemma RemoveLeading(s: string, c: char)
    requires s != [] && s[0] == c
    ensures RemoveFirst(s, c) == s[1..]
  {
    assert IndexOf(s, c) == Some(0);
  }

  /** `s.substring(a, b)` for `a <= b`: both ends are clamped to the
      length. */
  function Substring(s: string, a: nat, b: nat): (r: string)
    requires a <= b
    ensures b <= |s| ==> r == s[a..b]
    ensures a >= |s| ==> r == []
    ensures |r| <= b - a
  {
    var lo := if a <= |s| then a else |s|;
    var hi := if b <= |s| then b else |s|;
    s[lo..hi]
  }

  /** The value of a hexadecimal digit of either case. */
  function HexDigit(c: char): (d: Option<nat>)
    ensures d.Some? ==> d.value < 16
    ensures '0' <= c <= '9' ==> d == Some(c as int - '0' as int)
    ensures 'a' <= c <= 'f' ==> d == Some(c as int - 'a' as int + 10)
    ensures 'A' <= c <= 'F' ==> d == Some(c as int - 'A' as int + 10)
  {
    if '0' <= c <= '9' then Some(c as int - '0' as int)
    else if 'a' <= c <= 'f' then Some(c as int - 'a' as int + 10)
    else if 'A' <= c <= 'F' then Some(c as int - 'A' as int + 10)
    else None
  }

  predicate IsHexDigit(c: char) {
    HexDigit(c).Some?
  }

  /** Every character of `s[lo..hi]` is a hexadecimal digit. */
  predicate HexBetween(s: string, lo: nat, hi: nat) {
    lo <= hi <= |s| && forall k :: lo <= k < hi ==> IsHexDigit(s[k])
  }

  /** The first position at or after `i` that is not white space. */
  function SkipSpaces(s: string, i: nat): (j: nat)
    requires i <= |s|
    ensures i <= j <= |s|
    ensures j < |s| ==> !Strings.IsSpace(s[j])
    ensures forall k :: i <= k < j ==> Strings.IsSpace(s[k])
    decreases |s| - i
  {
    if i < |s| && Strings.IsSpace(s[i]) then SkipSpaces(s, i + 1) else i
  }

  /** The end of the run of hexadecimal digits that starts at `i`. */
  function HexRunEnd(s: string, i: nat): (j: nat)
    requires i <= |s|
    ensures HexBetween(s, i, j)
    ensures j < |s| ==> !IsHexDigit(s[j])
    decreases |s| - i
  {
    if i < |s| && IsHexDigit(s[i]) then HexRunEnd(s, i + 1) else i
  }

  /** The value of the digits `s[lo..hi]`, most significant first. */
  function HexValue(s: string, lo: nat, hi: nat): nat
    requires HexBetween(s, lo, hi)
    decreases hi - lo
  {
    if hi == lo then 0 else HexValue(s, lo, hi - 1) * 16 + HexDigit(s[hi - 1]).value
  }

  /** `parseInt(s, 16)`: leading white space and one sign are skipped, then
      an optional `0x`, then the longest run of hexadecimal digits is read;
      without digits the result is `NaN` (`None`). */
  function ParseHex(s: string): Option<int> {
    var i := SkipSpaces(s, 0);
    var negative := i < |s| && s[i] == '-';
    var j := if i < |s| && (s[i] == '-' || s[i] == '+') then i + 1 else i;
    var k := if j + 1 < |s| && s[j] == '0' && (s[j + 1] == 'x' || s[j + 1] == 'X') then j + 2 else j;
    ReadHex(s, negative, k)
  }

  /** The digits from `k` on, negated after a `-`. */
  function ReadHex(s: string, negative: bool, k: nat): Option<int>
    requires k <= |s|
  {
    var e := HexRunEnd(s, k);
    if e == k then None
    else
      var v: int := HexValue(s, k, e);
      Some(if negative then -v else v)
  }

  /** A run of digits up to the end is read whole. */
  lemma {:induction false} HexRunToEnd(s: string, i: nat)
    requires HexBetween(s, i, |s|)
    ensures HexRunEnd(s, i) == |s|
    decreases |s| - i
  {
    if i < |s| {
      HexRunToEnd(s, i + 1);
    }
  }

  /** A non-empty string of hexadecimal digits parses to its value (it
      cannot start with `0x`, since `x` is not a digit). */
  lemma ParseHexDigits(s: string)
    requires HexBetween(s, 0, |s|) && |s| > 0
    ensures ParseHex(s) == Some(HexValue(s, 0, |s|))
  {
    assert IsHexDigit(s[0]);
    assert SkipSpaces(s, 0) == 0;
    if |s| >= 2 {
      assert IsHexDigit(s[1]);
    }
    HexRunToEnd(s, 0);
    assert ReadHex(s, false, 0) == Some(HexValue(s, 0, |s|));
  }

  /** Two hexadecimal digits read as a byte. */
  lemma HexPair(x: string)
    requires |x| == 2 && IsHexDigit(x[0]) && IsHexDigit(x[1])
    ensures ParseHex(x) == Some(16 * HexDigit(x[0]).value + HexDigit(x[1]).value)
  {
    ParseHexDigits(x);
    assert HexValue(x, 0, 1) == HexDigit(x[0]).value;
  }

  /** The channels of a colour code after its first `#` is removed. */
  function Channels(code: string): (rgb: (Option<int>, Option<int>, Option<int>)) {
    var hex := RemoveFirst(code, '#');
    (ParseHex(Substring(hex, 0, 2)), ParseHex(Substring(hex, 2, 4)), ParseHex(Substring(hex, 4, 6)))
  }

  /** `isLightColor`: the relative luminance `(0.299 r + 0.587 g + 0.114 b)
      / 255` exceeds one half. A `NaN` channel makes the comparison false. */
  function IsLightColor(code: string): (light: bool)
    ensures light ==> var rgb := Channels(code); rgb.0.Some? && rgb.1.Some? && rgb.2.Some?
  {
    IsLight(Channels(code))
  }

  predicate IsLight(rgb: (Option<int>, Option<int>, Option<int>)) {
    && rgb.0.Some? && rgb.1.Some? && rgb.2.Some?
    && (0.299 * rgb.0.value as real + 0.587 * rgb.1.value as real + 0.114 * rgb.2.value as real) / 255.0 > 0.5
  }

  /** The luminance test in whole numbers. */
  lemma LuminanceInIntegers(r: int, g: int, b: int)
    ensures (0.299 * r as real + 0.587 * g as real + 0.114 * b as real) / 255.0 > 0.5
            <==> 299 * r + 587 * g + 114 * b > 127500
  {
  }

  /** `#` followed by six hexadecimal digits. */
  predicate WellFormed(code: string) {
    |code| == 7 && code[0] == '#' && HexBetween(code, 1, 7)
  }

  /** The two digits of channel `i` (after the `#`) are hexadecimal. */
  predicate ChannelDigits(code: string, i: nat) {
    i < 3 && |code| == 7 && IsHexDigit(code[1 + 2 * i]) && IsHexDigit(code[2 + 2 * i])
  }

  lemma WellFormedDigits(code: string, i: nat)
    requires WellFormed(code) && i < 3
    ensures ChannelDigits(code, i)
  {
    assert IsHexDigit(code[1 + 2 * i]) && IsHexDigit(code[2 + 2 * i]);
  }

  function Byte(code: string, i: nat): (v: nat)
    requires ChannelDigits(code, i)
    ensures v <= 255
  {
    16 * HexDigit(code[1 + 2 * i]).value + HexDigit(code[2 + 2 * i]).value
  }

  /** Channel `i` of a code whose two digits there are hexadecimal is its
      byte `i`. */
  lemma ChannelIsByte(code: string, i: nat)
    requires ChannelDigits(code, i)
    ensures ParseHex(Substring(code[1..], 2 * i, 2 * i + 2)) == Some(Byte(code, i))
  {
    var hex := code[1..];
    assert hex[2 * i] == code[1 + 2 * i] && hex[2 * i + 1] == code[2 + 2 * i];
    PairAt(hex, 2 * i);
  }

  /** Two hexadecimal digits taken out of a longer string read as a byte. */
  lemma PairAt(hex: string, a: nat)
    requires a + 2 <= |hex| && IsHexDigit(hex[a]) && IsHexDigit(hex[a + 1])
    ensures ParseHex(Substring(hex, a, a + 2)) == Some(16 * HexDigit(hex[a]).value + HexDigit(hex[a + 1]).value)
  {
    var x := Substring(hex, a, a + 2);
    assert x == hex[a..a + 2];
    assert x[0] == hex[a] && x[1] == hex[a + 1];
    HexPair(x);
  }

  /** For a well-formed code the channels are its three bytes. */
  lemma WellFormedChannels(code: string)
    requires WellFormed(code)
    ensures ChannelDigits(code, 0) && ChannelDigits(code, 1) && ChannelDigits(code, 2)
    ensures Channels(code) == (Some(Byte(code, 0)), Some(Byte(code, 1)), Some(Byte(code, 2)))
  {
    var hex := code[1..];
    RemoveLeading(code, '#');
    WellFormedDigits(code, 0);
    WellFormedDigits(code, 1);
    WellFormedDigits(code, 2);
    ChannelIsByte(code, 0);
    ChannelIsByte(code, 1);
    ChannelIsByte(code, 2);
    assert ParseHex(Substring(hex, 0, 2)) == Some(Byte(code, 0));
    assert ParseHex(Substring(hex, 2, 4)) == Some(Byte(code, 1));
    assert ParseHex(Substring(hex, 4, 6)) == Some(Byte(code, 2));
  }

  /** A well-formed colour is light exactly when the weighted sum of its
      bytes passes half of the maximum. */
  lemma WellFormedIsLight(code: string)
    requires WellFormed(code)
    ensures ChannelDigits(code, 0) && ChannelDigits(code, 1) && ChannelDigits(code, 2)
    ensures IsLightColor(code) <==> 299 * Byte(code, 0) + 587 * Byte(code, 1) + 114 * Byte(code, 2) > 127500
  {
    var r, g, b := Byte(code, 0), Byte(code, 1), Byte(code, 2);
    WellFormedChannels(code);
    assert IsLightColor(code) == IsLight((Some(r), Some(g), Some(b)));
    IsLightOfBytes(r, g, b);
  }

  lemma IsLightOfBytes(r: int, g: int, b: int)
    ensures IsLight((Some(r), Some(g), Some(b))) <==> 299 * r + 587 * g + 114 * b > 127500
  {
    LuminanceInIntegers(r, g, b);
  }

  /** White is light and black is not. */
  lemma WhiteAndBlack()
    ensures IsLightColor("#FFFFFF") && !IsLightColor("#000000")
  {
    assert WellFormed("#FFFFFF");
    assert WellFormed("#000000");
    WellFormedIsLight("#FFFFFF");
    WellFormedIsLight("#000000");
  }

  /** Only the first `#` is removed: with a doubled one the first channel
      reads `#F`, which is `NaN`, so even white is not light. */
  lemma DoubledHashIsNotLight()
    ensures !IsLightColor("##FFFFFF")
  {
    RemoveLeading("##FFFFFF", '#');
    assert "##FFFFFF"[1..] == "#FFFFFF";
    assert Substring("#FFFFFF", 0, 2) == "#F";
    NoDigitsIsNaN("#F");
  }

  /** Text that starts with neither white space, a sign nor a hexadecimal
      digit is `NaN`. */
  lemma NoDigitsIsNaN(s: string)
    requires s != [] && !Strings.IsSpace(s[0]) && s[0] != '-' && s[0] != '+' && !IsHexDigit(s[0])
    ensures ParseHex(s).None?
  {
    assert SkipSpaces(s, 0) == 0;
    assert s[0] != '0';
    assert HexRunEnd(s, 0) == 0;
  }

  /** A three-digit short code has no third channel, so it is never light. */
  lemma ShortCodeIsNotLight(code: string)
    requires |code| == 4 && code[0] == '#'
    ensures !IsLightColor(code)
  {
    var hex := code[1..];
    assert RemoveFirst(code, '#') == hex;
    assert Substring(hex, 4, 6) == [];
    assert SkipSpaces([], 0) == 0 && HexRunEnd([], 0) == 0;
  }

  /** What a swatch shows: selected or not, and the check mark's contrast
      (dark on light colours) when selected. */
  datatype Swatch = Swatch(id: string, hexCode: string, name: string, isSelected: bool, darkCheck: Option<bool>)

  function SwatchOf(c: ProductColor, selectedIds: seq<string>): (s: Swatch)
    ensures s.id == c.id && s.hexCode == c.hexCode && s.name == c.name
    ensures s.isSelected <==> c.id in selectedIds
    ensures s.darkCheck.Some? <==> s.isSelected
    ensures s.darkCheck == Some(true) <==> c.id in selectedIds && IsLightColor(c.hexCode)
  {
    var selected := c.id in selectedIds;
    Swatch(c.id, c.hexCode, c.name, selected, if selected then Some(IsLightColor(c.hexCode)) else None)
  }

  /** The popover: nothing while the list is empty, otherwise one swatch per
      colour in list order. */
  function Swatches(colors: seq<ProductColor>, selectedIds: seq<string>): (r: Option<seq<Swatch>>)
    ensures r.None? <==> colors == []
    ensures r.Some? ==> |r.value| == |colors|
    ensures r.Some? ==> forall i :: 0 <= i < |colors| ==> r.value[i] == SwatchOf(colors[i], selectedIds)
  {
    if colors == [] then None
    else Some(seq(|colors|, i requires 0 <= i < |colors| => SwatchOf(colors[i], selectedIds)))
  }

  /** The swatch at each position is marked exactly when the colour at that
      position is selected. */
  lemma MarkedAreSelected(colors: seq<ProductColor>, selectedIds: seq<string>, i: nat)
    requires colors != [] && i < |colors|
    ensures Swatches(colors, selectedIds).value[i].isSelected <==> colors[i].id in selectedIds
  {
  }
}
