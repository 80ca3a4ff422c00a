/** Phone numbers in ASCII: cleaning, validation, display and search variants. */
module Phone {
  import opened Wrappers
  import opened Decimal

  const COUNTRY := "972"

  /** What re.sub(r"[^\d+]", "", s) leaves. */
  function Filtered(s: string): string {
    if s == "" then ""
    else
      var c := s[|s| - 1];
      Filtered(s[..|s| - 1]) + if IsDigit(c) || c == '+' then [c] else ""
  }

  function DigitsOnly(s: string): (r: string)
    ensures AllDigits(r)
  {
    if s == "" then ""
    else
      var c := s[|s| - 1];
      DigitsOnly(s[..|s| - 1]) + if IsDigit(c) then [c] else ""
  }

  predicate IsSpace(c: char) {
    c == ' ' || '\t' <= c <= '\r' || '\U{1c}' <= c <= '\U{1f}'
  }

  function Trim(s: string): string {
    if s != "" && IsSpace(s[0]) then Trim(s[1..])
    else if s != "" && IsSpace(s[|s| - 1]) then Trim(s[..|s| - 1])
    else s
  }

  function DropPlus(s: string): string {
    if s != "" && s[0] == '+' then s[1..] else s
  }

  predicate StartsWith(s: string, prefix: string) {
    prefix <= s
  }

  /** Digits and inner plus signs of a raw number, without a leading plus. */
  function Core(raw: string): string {
    DropPlus(Filtered(raw))
  }

  // ----- clean_e164_whatsapp -----

  function International(core: string): string {
    if StartsWith(core, "0") && (|core| == 9 || |core| == 10) then COUNTRY + core[1..] else core
  }

  /** Digits only, 10 to 15 of them, with the country code in place of a domestic 0. */
  function Clean(raw: string): Result<string> {
    var c := International(Core(raw));
    if raw == "" || !AllDigits(c) || |c| < 10 || |c| > 15 then Throws else Ok(c)
  }

  method CleanE164Whatsapp(rawPhone: string) returns (r: Result<string>)
    ensures r == Clean(rawPhone)
  {
    if rawPhone == "" {
      return Throws;
    }
    TrimKeepsCore(rawPhone);
    var cleaned := Filtered(Trim(rawPhone));
    if StartsWith(cleaned, "+") {
      cleaned := cleaned[1..];
    }
    if StartsWith(cleaned, "05") && |cleaned| == 10 {
      cleaned := COUNTRY + cleaned[1..];
    } else if StartsWith(cleaned, "0") && (|cleaned| == 9 || |cleaned| == 10) {
      cleaned := COUNTRY + cleaned[1..];
    }
    if cleaned == "" || !AllDigits(cleaned) {
      return Throws;
    }
    if |cleaned| < 10 || |cleaned| > 15 {
      return Throws;
    }
    r := Ok(cleaned);
  }

  // ----- normalize_israeli_phone -----

  /** +9725 followed by eight digits. */
  predicate IsMobile(s: string) {
    |s| == 13 && StartsWith(s, "+9725") && AllDigits(s[5..])
  }

  function Normalize(val: string): Result<string> {
    if val == "" then Throws
    else
      var digits := Core(val);
      if StartsWith(digits, "972") && |digits| == 12 then Checked("+" + digits)
      else if StartsWith(digits, "05") && |digits| == 10 then Checked("+972" + digits[1..])
      else if StartsWith(digits, "5") && |digits| == 9 then Checked("+972" + digits)
      else Throws
  }

  function Checked(s: string): Result<string> {
    if IsMobile(s) then Ok(s) else Throws
  }

  // ----- Display and search -----

  /** 050-1234567 for an Israeli mobile number, anything else as it is. */
  function FormatDisplayPhone(phone: string): string {
    match Clean(phone)
    case Ok(c) => if StartsWith(c, "972") && |c| == 12 then "0" + c[3..5] + "-" + c[5..] else phone
    case Throws => phone
  }

  function Variants(phone: string): set<string> {
    var raw := Trim(phone);
    match Clean(raw)
    case Ok(c) => {raw, c, "+" + c} + if StartsWith(c, "972") && |c| == 12 then {"0" + c[3..]} else {}
    case Throws => {raw} + if DigitsOnly(raw) != "" then {DigitsOnly(raw), "+" + DigitsOnly(raw)} else {}
  }

  method GetPhoneSearchVariants(phone: string) returns (variants: set<string>)
    ensures variants == Variants(phone)
  {
    hide Clean;
    var raw := Trim(phone);
    variants := {raw};
    var clean := CleanE164Whatsapp(raw);
    match clean {
      case Ok(c) =>
        variants := variants + {c};
        variants := variants + {"+" + c};
        if StartsWith(c, "972") && |c| == 12 {
          variants := variants + {"0" + c[3..]};
        }
      case Throws =>
        var digits := DigitsOnly(raw);
        if digits != "" {
          variants := variants + {digits};
          variants := variants + {"+" + digits};
        }
    }
  }

  // ----- Filtering -----

  lemma {:induction false} FilteredConcat(a: string, b: string)
    ensures Filtered(a + b) == Filtered(a) + Filtered(b)
    decreases |b|
  {
    if b == "" {
      assert a + b == a;
    } else {
      var b' := b[..|b| - 1];
      assert (a + b)[..|a + b| - 1] == a + b';
      FilteredConcat(a, b');
    }
  }

  lemma {:induction false} FilteredDigits(s: string)
    requires AllDigits(s)
    ensures Filtered(s) == s && DigitsOnly(s) == s
  {
    if s != "" {
      FilteredDigits(s[..|s| - 1]);
      assert s == s[..|s| - 1] + [s[|s| - 1]];
    }
  }

  /** The digits are kept in place, and nothing else. */
  lemma {:induction false} DigitsKept(a: string, c: char, b: string)
    ensures DigitsOnly(a + [c] + b) == DigitsOnly(a) + (if '0' <= c <= '9' then [c] else "") + DigitsOnly(b)
    decreases |b|
  {
    var s := a + [c] + b;
    if b == "" {
      assert s[..|a|] == a;
    } else {
      var b' := b[..|b| - 1];
      assert s[..|s| - 1] == a + [c] + b';
      DigitsKept(a, c, b');
    }
  }

  lemma FilteredOne(c: char)
    ensures Filtered([c]) == if IsDigit(c) || c == '+' then [c] else ""
  {
    assert [c][..0] == "";
  }

  lemma {:induction false} TrimKeepsCore(s: string)
    ensures Filtered(Trim(s)) == Filtered(s)
    decreases |s|
  {
    if s != "" && IsSpace(s[0]) {
      FilteredConcat([s[0]], s[1..]);
      FilteredOne(s[0]);
      assert s == [s[0]] + s[1..];
      TrimKeepsCore(s[1..]);
    } else if s != "" && IsSpace(s[|s| - 1]) {
      TrimKeepsCore(s[..|s| - 1]);
    }
  }

  lemma CoreOfDigits(s: string)
    requires AllDigits(s)
    ensures Core(s) == s && Core("+" + s) == s
  {
    FilteredDigits(s);
    FilteredConcat("+", s);
    FilteredOne('+');
  }

  /** ASCII whitespace, and the separators str.strip() counts as whitespace. */
  predicate IsBlank(s: string) {
    forall i :: 0 <= i < |s| ==> s[i] as int in {9, 10, 11, 12, 13, 28, 29, 30, 31, 32}
  }

  /** Whitespace is cut off at both ends and nothing else. */
  lemma {:induction false} TrimIs(before: string, s: string, after: string)
    requires IsBlank(before) && IsBlank(after)
    requires s != "" ==> !IsBlank([s[0]]) && !IsBlank([s[|s| - 1]])
    ensures Trim(before + s + after) == s
    decreases |before|, |after|
  {
    var t := before + s + after;
    if before != "" {
      assert IsBlank([before[0]]) && t[1..] == before[1..] + s + after;
      TrimIs(before[1..], s, after);
    } else if after != "" {
      var n := |after| - 1;
      assert t[0] == if s == "" then after[0] else s[0];
      if s == "" {
        assert IsBlank([after[0]]) && t[1..] == "" + s + after[1..];
        TrimIs("", s, after[1..]);
      } else {
        assert !IsSpace(t[0]) && IsBlank([after[n]]) && t[|t| - 1] == after[n];
        assert t[..|t| - 1] == "" + s + after[..n];
        TrimIs("", s, after[..n]);
      }
    } else {
      assert t == s;
    }
  }

  // ----- Properties -----

  /** Digits are accepted from 10 to 15; those of a domestic number, 0 and 8 or 9 more, get the country code. */
  lemma CleanOfDigits(s: string)
    requires AllDigits(s)
    ensures Clean(s) == if (|s| == 9 || |s| == 10) && s[0] == '0' then Ok("972" + s[1..])
                        else if 10 <= |s| <= 15 then Ok(s) else Throws
  {
    CoreOfDigits(s);
    hide Filtered;
  }

  /** A character that is neither a digit nor a plus sign makes no difference, wherever it stands. */
  lemma NoiseIgnored(a: string, c: char, b: string)
    requires !('0' <= c <= '9') && c != '+' && a + b != ""
    ensures Clean(a + [c] + b) == Clean(a + b) && Normalize(a + [c] + b) == Normalize(a + b)
  {
    FilteredConcat(a + [c], b);
    FilteredConcat(a, [c]);
    FilteredConcat(a, b);
    FilteredOne(c);
    hide Filtered, International, AllDigits, IsMobile;
    assert Filtered(a) + "" == Filtered(a);
    assert Core(a + [c] + b) == Core(a + b);
  }

  /** The spellings of a mobile number: 05 and eight digits, the same without the 0, or with the country code. */
  lemma NormalizeIs(val: string, d: string)
    requires AllDigits(d) && |d| == 8
    ensures Normalize(val) == Ok("+9725" + d) <==> Core(val) in {"9725" + d, "05" + d, "5" + d}
  {
    CoreOfDigits("");
    hide Core, AllDigits, IsMobile;
    if Core(val) in {"9725" + d, "05" + d, "5" + d} {
      SpellingNormalizes(val, d);
    } else {
      OtherSpelling(val, d);
    }
  }

  lemma SpellingNormalizes(val: string, d: string)
    requires AllDigits(d) && |d| == 8 && val != ""
    requires Core(val) in {"9725" + d, "05" + d, "5" + d}
    ensures Normalize(val) == Ok("+9725" + d)
  {
    IsMobileNumber(d);
    Spellings(d);
    hide Core, AllDigits, IsMobile, StartsWith;
  }

  lemma Spellings(d: string)
    ensures StartsWith("9725" + d, "972") && "+" + ("9725" + d) == "+9725" + d
    ensures !StartsWith("05" + d, "972") && StartsWith("05" + d, "05") && "+972" + ("05" + d)[1..] == "+9725" + d
    ensures !StartsWith("5" + d, "972") && !StartsWith("5" + d, "05") && StartsWith("5" + d, "5")
    ensures "+972" + ("5" + d) == "+9725" + d
  {
    assert ("5" + d)[0] == '5' && ("05" + d)[0] == '0';
  }

  lemma IsMobileNumber(d: string)
    requires AllDigits(d) && |d| == 8
    ensures IsMobile("+9725" + d)
  {
    assert ("+9725" + d)[5..] == d;
  }

  lemma OtherSpelling(val: string, d: string)
    requires Core(val) !in {"9725" + d, "05" + d, "5" + d}
    ensures Normalize(val) != Ok("+9725" + d)
  {
    hide Core, AllDigits, IsMobile;
    var core, n := Core(val), "+9725" + d;
    assert n == "+" + ("9725" + d) == "+972" + ("5" + d);
    SamePrefix("+", core, "9725" + d);
    SamePrefix("+972", core, "5" + d);
    if "05" <= core {
      assert core == "0" + core[1..] && "05" + d == "0" + ("5" + d);
      SamePrefix("+972", core[1..], "5" + d);
    }
  }

  lemma SamePrefix(p: string, a: string, b: string)
    ensures p + a == p + b <==> a == b
  {
    assert (p + a)[|p|..] == a && (p + b)[|p|..] == b;
  }

  /** What is searched for digits: the domestic and the international form, with and without the plus. */
  lemma VariantsOfDigits(s: string)
    requires s != "" && AllDigits(s)
    ensures Variants(s) == if (|s| == 9 || |s| == 10) && s[0] == '0' then {s, "972" + s[1..], "+972" + s[1..]}
                           else if |s| == 12 && "972" <= s then {s, "+" + s, "0" + s[3..]}
                           else {s, "+" + s}
  {
    CleanOfDigits(s);
    FilteredDigits(s);
    TrimOfDigits(s);
    hide Clean, DigitsOnly, Trim, AllDigits;
    if (|s| == 9 || |s| == 10) && s[0] == '0' {
      DomesticOf(s);
    }
  }

  lemma TrimOfDigits(s: string)
    requires AllDigits(s)
    ensures Trim(s) == s
  {
    assert s != "" ==> IsDigit(s[0]) && IsDigit(s[|s| - 1]);
  }

  lemma DomesticOf(s: string)
    requires s != "" && s[0] == '0'
    ensures "+" + ("972" + s[1..]) == "+972" + s[1..] && "0" + ("972" + s[1..])[3..] == s
    ensures "972" <= "972" + s[1..]
  {
  }

  /** Cleaning a cleaned number changes nothing. */
  lemma CleanIdempotent(raw: string)
    ensures Clean(raw).Ok? ==> Clean(Clean(raw).value) == Clean(raw)
  {
    if Clean(raw).Ok? {
      CoreOfDigits(Clean(raw).value);
    }
  }

  /** A normalised number normalises to itself, and cleans to itself without the plus. */
  lemma NormalizeIdempotent(val: string)
    ensures Normalize(val).Ok? ==> Normalize(Normalize(val).value) == Normalize(val)
    ensures Normalize(val).Ok? ==> Clean(Normalize(val).value) == Ok(Normalize(val).value[1..])
  {
    if Normalize(val).Ok? {
      var n := Normalize(val).value;
      MobileDigits(n);
      CoreOfDigits(n[1..]);
      assert n == "+" + n[1..];
      hide Core, Filtered;
    }
  }

  lemma MobileDigits(n: string)
    requires IsMobile(n)
    ensures AllDigits(n[1..]) && StartsWith(n[1..], "972") && |n[1..]| == 12
  {
  }

  /** The digits of the display form. */
  lemma CoreOfDisplay(c: string)
    requires AllDigits(c) && |c| == 12
    ensures Core("0" + c[3..5] + "-" + c[5..]) == "0" + c[3..]
  {
    var head, tail := "0" + c[3..5], c[5..];
    FilteredHyphen(head, tail);
    assert head + tail == "0" + c[3..];
    hide Filtered, AllDigits;
  }

  lemma FilteredHyphen(a: string, b: string)
    requires AllDigits(a) && AllDigits(b)
    ensures Filtered(a + "-" + b) == a + b
  {
    FilteredConcat(a + "-", b);
    FilteredConcat(a, "-");
    FilteredOne('-');
    FilteredDigits(a);
    FilteredDigits(b);
    assert a + "" == a;
  }

  /** Cleaning what is displayed gives what cleaning the number gives. */
  lemma CleanOfDisplay(phone: string)
    ensures Clean(FormatDisplayPhone(phone)) == Clean(phone)
  {
    hide Core, AllDigits;
    if Clean(phone).Ok? && StartsWith(Clean(phone).value, "972") && |Clean(phone).value| == 12 {
      var c := Clean(phone).value;
      CoreOfDisplay(c);
      assert ("0" + c[3..])[1..] == c[3..];
      assert c == COUNTRY + c[3..];
    }
  }

  /** The display form of a valid mobile number is accepted and means the same number. */
  lemma DisplayNormalizes(val: string)
    ensures Normalize(val).Ok? ==> Normalize(FormatDisplayPhone(Normalize(val).value)) == Normalize(val)
    ensures Normalize(val).Ok? ==>
              var n := Normalize(val).value; FormatDisplayPhone(n) == "0" + n[4..6] + "-" + n[6..]
  {
    if Normalize(val).Ok? {
      var n := Normalize(val).value;
      NormalizeIdempotent(val);
      var c := n[1..];
      MobileOk(val);
      MobileDigits(n);
      assert n[..5] == "+9725" && c[3] == n[4];
      CoreOfDisplay(c);
      hide Clean, Core, AllDigits, IsMobile;
      var shown := FormatDisplayPhone(n);
      assert shown == "0" + c[3..5] + "-" + c[5..];
    assert c[3..5] == n[4..6] && c[5..] == n[6..];
      var digits := "0" + c[3..];
      assert digits[..2] == "05" && digits[1..] == c[3..];
      assert n[..4] == "+972" && n == "+972" + c[3..];
    }
  }

  lemma MobileOk(val: string)
    requires Normalize(val).Ok?
    ensures IsMobile(Normalize(val).value)
  {
    hide Core, IsMobile;
  }

  /**
   The normalised number is among the search variants of a spelling exactly when the spelling has
   ten or twelve digits; a nine-digit spelling is not found.
   */
  lemma {:induction false} VariantsFindNormalized(val: string)
    requires Normalize(val).Ok?
    ensures Normalize(val).value in Variants(val) <==> |Core(val)| != 9
  {
    TrimKeepsCore(val);
    var n, raw, core := Normalize(val).value, Trim(val), Core(val);
    MobileDigits(n);
    assert Core(raw) == core;
    CoreOfDigits(n[1..]);
    assert n == "+" + n[1..];
    assert Core("") == "";
    if |core| == 9 {
      assert core[0] == '5';
      assert Clean(raw) == Throws;
      DigitsShorter(raw);
    } else {
      hide Filtered, DigitsOnly;
      if |core| == 12 {
        assert n == "+" + core && core == n[1..];
      } else {
        assert n == "+972" + core[1..] && n[1..] == "972" + core[1..];
        assert COUNTRY + core[1..] == n[1..];
      }
      assert AllDigits(International(core));
      assert n == "+" + n[1..];
    }
  }

  lemma {:induction false} DigitsShorter(s: string)
    ensures |DigitsOnly(s)| <= |Filtered(s)|
  {
    if s != "" {
      DigitsShorter(s[..|s| - 1]);
    }
  }
}
