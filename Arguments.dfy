/** The command-line value converters: `resolution`, `timeout` and
    `validate_grub2_mkrescue_addition`. A `ValueError` is an `Err`. */
module Arguments {
  import opened Wrappers
  import opened Text
  import opened Decimal

  /** A display size in pixels, as `(width, height)`. */
  datatype Size = Size(width: nat, height: nat)

  /** One side of the pattern: `[1-9][0-9]{2,}`. */
  predicate IsDimension(s: string) {
    |s| >= 3 && AllDigits(s) && s[0] != '0'
  }

  /** The whole text matches `[1-9][0-9]{2,}x[1-9][0-9]{2,}`. */
  ghost predicate MatchesResolution(text: string) {
    exists i :: 0 <= i < |text| && text[i] == 'x' && IsDimension(text[..i]) && IsDimension(text[i + 1..])
  }

  /** `resolution(text)`: split at the `x` and read both sides as numbers. */
  function ParseResolution(text: string): (r: Result<Size>)
    ensures r.Ok? ==> r.value.width >= 100 && r.value.height >= 100
  {
    var i := IndexOf(text, 'x');
    if i < |text| && IsDimension(text[..i]) && IsDimension(text[i + 1..]) then
      DigitsValueBounds(text[..i]);
      DigitsValueBounds(text[i + 1..]);
      Ok(Size(DigitsValue(text[..i]), DigitsValue(text[i + 1..])))
    else
      Err("Not a supported resolution: \"" + text + "\"")
  }

  /** The converter accepts exactly the texts that match the pattern. */
  lemma {:induction false} ParseResolutionAcceptsPattern(text: string)
    ensures ParseResolution(text).Ok? <==> MatchesResolution(text)
  {
    var i := IndexOf(text, 'x');
    if MatchesResolution(text) {
      var k :| 0 <= k < |text| && text[k] == 'x' && IsDimension(text[..k]) && IsDimension(text[k + 1..]);
      forall j | 0 <= j < k
        ensures text[j] != 'x'
      {
        assert IsDigit(text[..k][j]);
      }
      assert i == k;
    }
  }

  /** Writing a size the way the help text shows it (`800x600`) and reading
      it back gives the same size. */
  lemma {:induction false} ParseResolutionOfRendered(size: Size)
    requires size.width >= 100 && size.height >= 100
    ensures ParseResolution(NatToString(size.width) + "x" + NatToString(size.height)) == Ok(size)
  {
    var w, h := NatToString(size.width), NatToString(size.height);
    var text := w + "x" + h;
    NatToStringLength(size.width);
    NatToStringLength(size.height);
    assert text[|w|] == 'x';
    assert forall j :: 0 <= j < |w| ==> text[j] == w[j] && text[j] != 'x';
    assert IndexOf(text, 'x') == |w|;
    assert text[..|w|] == w && text[|w| + 1..] == h;
    DigitsValueOfNatToString(size.width);
    DigitsValueOfNatToString(size.height);
  }

  /** Every accepted text is the canonical rendering of the size it yields. */
  lemma {:induction false} ParseResolutionIsCanonical(text: string)
    requires ParseResolution(text).Ok?
    ensures text == NatToString(ParseResolution(text).value.width) + "x"
                    + NatToString(ParseResolution(text).value.height)
  {
    var i := IndexOf(text, 'x');
    NatToStringOfDigitsValue(text[..i]);
    NatToStringOfDigitsValue(text[i + 1..]);
    assert text == text[..i] + "x" + text[i + 1..];
  }

  /** Negative timeouts all mean "no timeout", written `-1`. */
  function NormaliseTimeout(seconds: int): (r: int)
    ensures r >= -1
    ensures seconds >= 0 ==> r == seconds
    ensures seconds < 0 ==> r == -1
  {
    if seconds < 0 then -1 else seconds
  }

  /** `timeout(text)`: `int(text)`, then negatives become -1. */
  function Timeout(text: string): (r: Result<int>)
    ensures r.Ok? <==> ParseInt(text).Ok?
    ensures r.Ok? ==> r.value >= -1
    ensures r.Ok? ==> r.value == NormaliseTimeout(ParseInt(text).value)
  {
    match ParseInt(text)
    case Ok(seconds) => Ok(NormaliseTimeout(seconds))
    case Err(message) => Err(message)
  }

  /** Normalising twice is normalising once. */
  lemma {:induction false} NormaliseTimeoutIdempotent(seconds: int)
    ensures NormaliseTimeout(NormaliseTimeout(seconds)) == NormaliseTimeout(seconds)
  {
  }

  /** A value `timeout` produced, written with `%d` and converted again,
      comes back unchanged. */
  lemma {:induction false} TimeoutFixedPoint(text: string)
    requires Timeout(text).Ok?
    ensures Timeout(IntToString(Timeout(text).value)) == Timeout(text)
  {
    ParseIntOfIntToString(Timeout(text).value);
  }

  /** `'=/' in s`. */
  function ContainsEqualsSlash(s: string): (b: bool)
    ensures b <==> exists i :: 0 <= i < |s| - 1 && s[i] == '=' && s[i + 1] == '/'
    decreases |s|
  {
    if |s| < 2 then false
    else if s[0] == '=' && s[1] == '/' then true
    else
      var found := ContainsEqualsSlash(s[1..]);
      assert found ==> exists i :: 0 <= i < |s| - 1 && s[i] == '=' && s[i + 1] == '/' by {
        if found {
          var i :| 0 <= i < |s| - 2 && s[1..][i] == '=' && s[1..][i + 1] == '/';
          assert s[i + 1] == '=' && s[i + 2] == '/';
        }
      }
      found
  }

  /** `validate_grub2_mkrescue_addition`: a `TARGET=/SOURCE` request is
      passed through unchanged if it holds `=/`, and refused otherwise. */
  function ValidateGrub2MkrescueAddition(candidate: string): (r: Result<string>)
    ensures r.Ok? <==> exists i :: 0 <= i < |candidate| - 1 && candidate[i] == '=' && candidate[i + 1] == '/'
    ensures r.Ok? ==> r.value == candidate
  {
    if !ContainsEqualsSlash(candidate) then Err("") else Ok(candidate)
  }
}
