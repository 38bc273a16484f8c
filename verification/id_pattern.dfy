/**
 The positive-id pattern `^\+?[1-9]\d*$` that `RoleDeptDto`, `UserDeptDto`
 and `RoleMenuDto` put on their `long Id`. A regular-expression attribute
 lets a null or empty value through, and otherwise asks for a match that
 covers the whole text; a number is matched in its decimal rendering.
 */
module IdPattern {
  import opened Common

  predicate IsDigit(c: char) {
    '0' <= c <= '9'
  }

  predicate AllDigits(s: string) {
    forall k :: 0 <= k < |s| ==> IsDigit(s[k])
  }

  /** `[1-9]\d*`: a non-zero digit followed by any digits. */
  predicate Unsigned(s: string) {
    |s| >= 1 && '1' <= s[0] <= '9' && AllDigits(s[1..])
  }

  /** The whole text matches `^\+?[1-9]\d*$`. */
  predicate PatternMatches(s: string) {
    Unsigned(s) || (|s| >= 1 && s[0] == '+' && Unsigned(s[1..]))
  }

  /** The attribute's verdict on a value already converted to text. */
  predicate AttributeValid(value: Option<string>) {
    IsNullOrEmpty(value) || PatternMatches(value.value)
  }

  /** The shape of the accepted texts, and the texts the pattern turns away. */
  lemma AcceptedShape(s: string)
    requires PatternMatches(s)
    ensures |s| >= 1 && s[|s| - 1] != '+'
    ensures forall k :: 0 <= k < |s| ==> IsDigit(s[k]) || (k == 0 && s[k] == '+')
    ensures s[0] == '+' ==> PatternMatches(s[1..])
    ensures s[0] != '0' && (s[0] == '+' ==> s[1] != '0')
  {
  }

  lemma Rejections(digits: string)
    ensures !PatternMatches("") && !PatternMatches("0") && !PatternMatches("01")
    ensures !PatternMatches("+") && !PatternMatches("+0")
    ensures !PatternMatches("-" + digits) && !PatternMatches("0" + digits)
    ensures PatternMatches("1") && PatternMatches("+42")
  {
    assert ("0" + digits)[0] == '0';
    assert ("-" + digits)[0] == '-';
    assert "+42"[1..] == "42";
  }

  function DigitChar(d: int): (c: char)
    requires 0 <= d <= 9
    ensures IsDigit(c) && (d != 0 <==> c != '0')
  {
    ('0' as int + d) as char
  }

  function DigitValue(c: char): (d: int)
    requires IsDigit(c)
    ensures 0 <= d <= 9 && DigitChar(d) == c
  {
    c as int - '0' as int
  }

  /** The decimal digits of a natural number, without leading zeros. */
  function Digits(n: nat): (s: string)
    ensures |s| >= 1 && AllDigits(s)
    ensures n >= 1 ==> s[0] != '0'
    ensures n == 0 ==> s == "0"
    decreases n
  {
    if n < 10 then [DigitChar(n)]
    else
      var init := Digits(n / 10);
      assert init[0] != '0';
      init + [DigitChar(n % 10)]
  }

  /** The culture-aware decimal rendering of a `long`, modelled on ASCII digits and '-'. */
  function Render(n: int): string {
    if n < 0 then "-" + Digits(-n) else Digits(n)
  }

  /** The value of a text of decimal digits. */
  function Value(s: string): nat
    requires AllDigits(s)
  {
    if |s| == 0 then 0 else 10 * Value(s[..|s| - 1]) + DigitValue(s[|s| - 1])
  }

  /** Reading the digits of a number back gives the number. */
  lemma {:induction false} ValueOfDigits(n: nat)
    ensures Value(Digits(n)) == n
    decreases n
  {
    if n >= 10 {
      var s := Digits(n);
      ValueOfDigits(n / 10);
      assert s[..|s| - 1] == Digits(n / 10);
    }
  }

  /** A digit text without a leading zero has a positive value. */
  lemma {:induction false} ValuePositive(s: string)
    requires Unsigned(s)
    ensures Value(s) >= 1
    decreases |s|
  {
    if |s| > 1 {
      var init := s[..|s| - 1];
      assert init[1..] == s[1..][..|s| - 2];
      ValuePositive(init);
    }
  }

  /** Rendering the value of a digit text without a leading zero gives the text back. */
  lemma {:induction false} DigitsOfValue(s: string)
    requires Unsigned(s)
    ensures Digits(Value(s)) == s
    decreases |s|
  {
    if |s| > 1 {
      var init := s[..|s| - 1];
      assert init[1..] == s[1..][..|s| - 2];
      ValuePositive(init);
      DigitsOfValue(init);
      var v := Value(s);
      assert v / 10 == Value(init) && v % 10 == DigitValue(s[|s| - 1]);
      assert s == init + [s[|s| - 1]];
    }
  }

  /** For a rendered `long` the pattern accepts exactly the ids of one or more. */
  lemma RenderedIdAccepted(n: int)
    ensures AttributeValid(Some(Render(n))) <==> n >= 1
  {
    if n < 0 {
      assert Render(n)[0] == '-';
    } else if n == 0 {
      assert Render(n) == "0";
    } else {
      var s := Digits(n);
      assert Unsigned(s) by {
        assert forall k :: 0 <= k < |s[1..]| ==> s[1..][k] == s[k + 1];
      }
    }
  }

  /** Every accepted text denotes a positive id, and renders back without its sign. */
  lemma AcceptedTextRoundTrip(s: string)
    requires PatternMatches(s)
    ensures var body := if s[0] == '+' then s[1..] else s;
            AllDigits(body) && Value(body) >= 1 && Render(Value(body)) == body
  {
    var body := if s[0] == '+' then s[1..] else s;
    assert Unsigned(body);
    assert AllDigits(body) by {
      assert forall k :: 1 <= k < |body| ==> body[k] == body[1..][k - 1];
    }
    ValuePositive(body);
    DigitsOfValue(body);
  }

  /** The three DTOs that carry the pattern on their id. */
  datatype IdDto = RoleDeptDto(id: int) | UserDeptDto(id: int) | RoleMenuDto(id: int)

  /** The default message template of the attribute, used when a DTO names none. */
  const DefaultMessage: string := "The field {0} must match the regular expression '{1}'."

  /**
   Model validation of an id DTO: `None` when valid, else the message template
   of the error, before the member name is filled in.
   */
  function Validate(dto: IdDto): (r: Option<string>)
    ensures r.None? <==> dto.id >= 1
    ensures r.Some? && dto.RoleDeptDto? ==> r.value == "{0}required"
    ensures r.Some? && !dto.RoleDeptDto? ==> r.value == DefaultMessage
  {
    RenderedIdAccepted(dto.id);
    if AttributeValid(Some(Render(dto.id))) then None
    else if dto.RoleDeptDto? then Some("{0}required")
    else Some(DefaultMessage)
  }
}
