/** The sentinel-error example of pratices/errorHandling.go: `getUser` and
    the caller that tests its error with `errors.Is`. Go error values become
    a datatype; `%d` formatting of the id is written out. */
module ErrorHandling {
  import opened Options

  /** A Go error. `Sentinel` is what `errors.New` makes: each call yields a
      value of its own, told apart here by `id`. `Wrapped` is what
      `fmt.Errorf` with `%w` makes: the whole formatted message and the error
      it wraps. */
  datatype GoError = Sentinel(id: nat, text: string) | Wrapped(msg: string, inner: GoError)

  /** The string `Error()` returns. */
  function Message(e: GoError): string {
    match e
    case Sentinel(_, text) => text
    case Wrapped(msg, _) => msg
  }

  /** The error followed by everything reached by repeated `Unwrap`. */
  function Chain(e: GoError): (c: seq<GoError>)
    decreases e
  {
    [e] + (if e.Wrapped? then Chain(e.inner) else [])
  }

  /** `errors.Is`: walk the unwrap chain and compare each error with the
      target. */
  function Is(e: GoError, target: GoError): (found: bool)
    ensures found <==> target in Chain(e)
    decreases e
  {
    e == target || (e.Wrapped? && Is(e.inner, target))
  }

  const ErrNotFound: GoError := Sentinel(0, "not found")

  // ---------------------------------------------------------------------
  // `%d` of a Go int

  predicate IsDigit(c: char) {
    '0' <= c <= '9'
  }

  predicate AllDigits(s: string) {
    forall k :: 0 <= k < |s| ==> IsDigit(s[k])
  }

  function DigitChar(d: nat): (c: char)
    requires d < 10
    ensures IsDigit(c)
  {
    ('0' as int + d) as char
  }

  function DigitValue(c: char): nat
    requires IsDigit(c)
  {
    (c as int - '0' as int) as nat
  }

  /** The decimal digits of `n`, most significant first, without leading
      zeros. */
  function NatToDecimal(n: nat): (s: string)
    ensures |s| > 0
    ensures AllDigits(s)
    ensures s[0] == '0' <==> n == 0
    ensures n == 0 ==> |s| == 1
  {
    if n < 10 then [DigitChar(n)] else NatToDecimal(n / 10) + [DigitChar(n % 10)]
  }

  /** What `%d` prints: a minus sign exactly for a negative value, then the
      decimal digits of the magnitude. */
  function FormatInt(n: int): (s: string)
    ensures |s| > 0 && (s[0] == '-' <==> n < 0)
    ensures n >= 0 ==> AllDigits(s) && DecimalToNat(s) == n
    ensures n < 0 ==> AllDigits(s[1..]) && DecimalToNat(s[1..]) == -n
    // no leading zeros: a digit string starts with '0' only when it is "0"
    ensures (if n < 0 then s[1] else s[0]) == '0' ==> s == "0"
  {
    if n < 0 then
      DecimalRoundTrip(-n);
      var s := "-" + NatToDecimal(-n);
      assert s[1..] == NatToDecimal(-n);
      s
    else
      DecimalRoundTrip(n);
      var s := NatToDecimal(n);
      assert IsDigit(s[0]);
      s
  }

  /** The value of a string of digits. */
  function DecimalToNat(s: string): nat
    requires AllDigits(s)
  {
    if |s| == 0 then 0 else DecimalToNat(s[..|s| - 1]) * 10 + DigitValue(s[|s| - 1])
  }

  /** The inverse of `FormatInt` on the strings it produces. */
  function ParseInt(s: string): Option<int> {
    if |s| > 1 && s[0] == '-' && AllDigits(s[1..]) then
      var magnitude: int := DecimalToNat(s[1..]);
      Some(-magnitude)
    else if |s| > 0 && AllDigits(s) then
      Some(DecimalToNat(s))
    else
      None
  }

  lemma {:induction false} DecimalRoundTrip(n: nat)
    ensures DecimalToNat(NatToDecimal(n)) == n
  {
    var s := NatToDecimal(n);
    if n >= 10 {
      DecimalRoundTrip(n / 10);
      assert s[..|s| - 1] == NatToDecimal(n / 10);
    }
  }

  /** Formatting then parsing gives back the number. */
  lemma FormatRoundTrip(n: int)
    ensures ParseInt(FormatInt(n)) == Some(n)
  {
    var s := FormatInt(n);
    if n < 0 {
      assert s[1..] == NatToDecimal(-n);
      DecimalRoundTrip(-n);
    } else {
      assert IsDigit(s[0]);
      DecimalRoundTrip(n);
    }
  }

  /** Distinct ids print differently. */
  lemma FormatIntInjective(a: int, b: int)
    requires FormatInt(a) == FormatInt(b)
    ensures a == b
  {
    FormatRoundTrip(a);
    FormatRoundTrip(b);
  }

  // ---------------------------------------------------------------------
  // getUser

  /** `getUser`'s two results: the name and the error, `None` standing for nil. */
  datatype UserLookup = UserLookup(name: string, err: Option<GoError>)

  function GetUser(id: int): (r: UserLookup)
    ensures r.err.None? <==> id == 1
    ensures id == 1 ==> r.name == "Alice"
    ensures id != 1 ==>
              && r.name == ""
              && r.err.value.Wrapped? && r.err.value.inner == ErrNotFound
              && Message(r.err.value) == "user " + FormatInt(id) + ": " + Message(ErrNotFound)
  {
    if id != 1 then
      UserLookup("", Some(Wrapped("user " + FormatInt(id) + ": " + Message(ErrNotFound), ErrNotFound)))
    else
      UserLookup("Alice", None)
  }

  /** The not-found error matches `ErrNotFound` under `errors.Is`, and no
      other sentinel, even one with the same text. */
  lemma NotFoundIsSentinel(id: int, other: GoError)
    requires id != 1
    requires other.Sentinel? && other != ErrNotFound
    ensures Is(GetUser(id).err.value, ErrNotFound)
    ensures !Is(GetUser(id).err.value, other)
  {
  }

  /** Different missing ids give different error messages. */
  lemma NotFoundMessagesDistinct(a: int, b: int)
    requires a != 1 && b != 1 && a != b
    ensures Message(GetUser(a).err.value) != Message(GetUser(b).err.value)
  {
    var pre := "user ";
    var post := ": " + Message(ErrNotFound);
    var fa, fb := FormatInt(a), FormatInt(b);
    assert Message(GetUser(a).err.value) == pre + fa + post;
    assert Message(GetUser(b).err.value) == pre + fb + post;
    if pre + fa + post == pre + fb + post {
      Middle(pre, fa, post);
      Middle(pre, fb, post);
      FormatIntInjective(a, b);
    }
  }

  /** The middle part of a three-part concatenation. */
  lemma Middle(p: string, x: string, q: string)
    ensures (p + x + q)[|p|..|p + x + q| - |q|] == x
  {
  }

  lemma GetUserTwoMessage()
    ensures Message(GetUser(2).err.value) == "user 2: not found"
  {
  }

  /** `ErrorHandling`: looks up id 2 and reports whether the error is
      `ErrNotFound`. */
  function ErrorHandling(): (userNotFound: bool)
    ensures userNotFound
  {
    var r := GetUser(2);
    assert Is(r.err.value.inner, ErrNotFound);
    r.err.Some? && Is(r.err.value, ErrNotFound)
  }
}
