/** The front end's utility belt: validators and formatters for Angolan
    identity-card (BI), phone and tax (NIF) numbers, masking and truncation,
    file extensions, password strength, business days, relative times, and the
    local storage wrapper whose entries can expire. */
module Utils {
  import opened JsValue
  import opened Seqs
  import Dates

  // ---------------------------------------------------------------------------
  // Character classes of the regular expressions

  /** `\s`: the characters a JavaScript regular expression counts as white space. */
  predicate IsSpace(c: char)
  {
    c == ' ' || c == '\t' || c == '\n' || c == '\U{B}' || c == '\U{C}' || c == '\r'
    || c == '\U{A0}' || c == '\U{1680}' || ('\U{2000}' <= c <= '\U{200A}')
    || c == '\U{2028}' || c == '\U{2029}' || c == '\U{202F}' || c == '\U{205F}'
    || c == '\U{3000}' || c == '\U{FEFF}'
  }

  predicate NotSpace(c: char)
  {
    !IsSpace(c)
  }

  /** `[A-Z]`. */
  predicate IsUpper(c: char)
  {
    'A' <= c <= 'Z'
  }

  /** `[a-z]`. */
  predicate IsLower(c: char)
  {
    'a' <= c <= 'z'
  }

  /** `s.replace(/\D/g, '')`: the decimal digits of `s`, in order. */
  function Digits(s: string): (d: string)
    ensures |d| <= |s|
    ensures forall i :: 0 <= i < |d| ==> IsDigit(d[i])
  {
    if s == [] then [] else (if IsDigit(s[0]) then [s[0]] else []) + Digits(s[1..])
  }

  /** A string of digits is its own digit string. */
  lemma {:induction false} DigitsOfDigits(s: string)
    requires forall i :: 0 <= i < |s| ==> IsDigit(s[i])
    ensures Digits(s) == s
  {
    if s != [] {
      DigitsOfDigits(s[1..]);
    }
  }

  /** The digits of a concatenation are the digits of each part. */
  lemma {:induction false} DigitsAppend(a: string, b: string)
    ensures Digits(a + b) == Digits(a) + Digits(b)
  {
    if a == [] {
      assert a + b == b;
    } else {
      assert (a + b)[0] == a[0] && (a + b)[1..] == a[1..] + b;
      DigitsAppend(a[1..], b);
    }
  }

  /** A string without digits contributes nothing. */
  lemma {:induction false} DigitsOfNone(s: string)
    requires forall i :: 0 <= i < |s| ==> !IsDigit(s[i])
    ensures Digits(s) == []
  {
    if s != [] {
      DigitsOfNone(s[1..]);
    }
  }

  // ---------------------------------------------------------------------------
  // ValidationUtils

  /** `^\d{9}[A-Z]{2}\d{3}$`: nine digits, two capital letters, three digits. */
  predicate BIShape(t: string)
  {
    && |t| == 14
    && (forall i :: 0 <= i < 9 ==> IsDigit(t[i]))
    && IsUpper(t[9]) && IsUpper(t[10])
    && (forall i :: 11 <= i < 14 ==> IsDigit(t[i]))
  }

  /** `isValidBI`: the shape test after white space is removed. */
  function IsValidBI(bi: string): (ok: bool)
    ensures ok ==> 14 <= |bi|
  {
    BIShape(Filter(bi, NotSpace))
  }

  /** `isValidPhone`: twelve digits starting `244`, or nine starting `9`,
      whatever separators surround them. */
  function IsValidPhone(phone: string): (ok: bool)
    ensures ok ==> 9 <= |phone|
  {
    var c := Digits(phone);
    (StartsWith(c, "244") && |c| == 12) || (StartsWith(c, "9") && |c| == 9)
  }

  /** `isValidNIF`: nine or ten digits. */
  function IsValidNIF(nif: string): (ok: bool)
    ensures ok ==> 9 <= |nif|
  {
    |Digits(nif)| == 9 || |Digits(nif)| == 10
  }

  /** Phone and NIF validity depend on the digits alone: stripping the
      separators first changes neither verdict. */
  lemma ValidityIgnoresSeparators(s: string)
    ensures IsValidPhone(s) == IsValidPhone(Digits(s))
    ensures IsValidNIF(s) == IsValidNIF(Digits(s))
  {
    DigitsOfDigits(Digits(s));
  }

  /** The five tests `passwordStrength` applies, in the order of their keys. */
  datatype Checks = Checks(length: bool, lowercase: bool, uppercase: bool, numbers: bool, symbols: bool)

  predicate IsSymbol(c: char)
  {
    !IsUpper(c) && !IsLower(c) && !IsDigit(c)
  }

  /** `/[x]/.test(password)` for a character class `x`. */
  predicate AnyChar(s: string, p: char -> bool)
  {
    exists i :: 0 <= i < |s| && p(s[i])
  }

  function ChecksOf(password: string): Checks
  {
    Checks(|password| >= 8, AnyChar(password, IsLower), AnyChar(password, IsUpper),
           AnyChar(password, IsDigit), AnyChar(password, IsSymbol))
  }

  /** `Object.values(checks)`. */
  function Values(c: Checks): seq<bool>
  {
    [c.length, c.lowercase, c.uppercase, c.numbers, c.symbols]
  }

  function CountTrue(bs: seq<bool>): (n: nat)
    ensures n <= |bs|
  {
    if bs == [] then 0 else CountTrue(bs[..|bs| - 1]) + (if bs[|bs| - 1] then 1 else 0)
  }

  /** The label for a score. */
  function Label(score: nat): (name: string)
    ensures name == "Forte" <==> score >= 4
    ensures name == "Média" <==> score == 3
    ensures name == "Fraca" <==> score == 2
    ensures name == "Muito Fraca" <==> score < 2
  {
    if score >= 4 then "Forte" else if score >= 3 then "Média" else if score >= 2 then "Fraca" else "Muito Fraca"
  }

  datatype Strength = Strength(score: nat, strength: string, checks: Checks)

  /** `passwordStrength`: count the satisfied checks, then label the count. */
  method PasswordStrength(password: string) returns (result: Strength)
    ensures result.checks == ChecksOf(password)
    ensures result.score == CountTrue(Values(result.checks)) && result.score <= 5
    ensures result.strength == Label(result.score)
  {
    var checks := ChecksOf(password);
    var values := Values(checks);
    var score := 0;
    var i := 0;
    while i < |values|
      invariant 0 <= i <= |values|
      invariant score == CountTrue(values[..i])
    {
      assert values[..i + 1][..i] == values[..i];
      if values[i] {
        score := score + 1;
      }
      i := i + 1;
    }
    assert values[..i] == values;
    result := Strength(score, Label(score), checks);
  }

  /** Appending characters to a password never lowers its score. */
  lemma StrengthMonotone(p: string, q: string)
    ensures CountTrue(Values(ChecksOf(p))) <= CountTrue(Values(ChecksOf(p + q)))
  {
    var a, b := ChecksOf(p), ChecksOf(p + q);
    forall f: char -> bool | AnyChar(p, f) ensures AnyChar(p + q, f) {
      var i :| 0 <= i < |p| && f(p[i]);
      assert (p + q)[i] == p[i];
    }
    CountTrueMonotone(Values(a), Values(b));
  }

  /** Pointwise more `true` values count at least as many. */
  lemma {:induction false} CountTrueMonotone(xs: seq<bool>, ys: seq<bool>)
    requires |xs| == |ys|
    requires forall i :: 0 <= i < |xs| && xs[i] ==> ys[i]
    ensures CountTrue(xs) <= CountTrue(ys)
  {
    if xs != [] {
      CountTrueMonotone(xs[..|xs| - 1], ys[..|ys| - 1]);
    }
  }

  // ---------------------------------------------------------------------------
  // StringUtils

  /** `formatBI` as written: with eleven or more digits, the first nine, `LA`,
      and `substring(9, 12)` of the digits, which has only two digits when
      there are exactly eleven. */
  function FormatBI(bi: string): (r: string)
    ensures |Digits(bi)| < 11 ==> r == bi
    ensures |Digits(bi)| != 11 ==> r == FormatBIFixed(bi)
  {
    var cleaned := Digits(bi);
    if |cleaned| >= 11 then cleaned[..9] + "LA" + cleaned[9..if |cleaned| < 12 then |cleaned| else 12] else bi
  }

  /** Exactly eleven digits (`12345678901`, say) are formatted into a
      thirteen-character string, `123456789LA01`, which the validator rejects. */
  lemma FormatBIElevenDigits(bi: string)
    requires |Digits(bi)| == 11
    ensures FormatBI(bi) == Digits(bi)[..9] + "LA" + Digits(bi)[9..]
    ensures |FormatBI(bi)| == 13 && !IsValidBI(FormatBI(bi))
  {
    var c := Digits(bi);
    var r := FormatBI(bi);
    assert r == c[..9] + "LA" + c[9..11];
    assert c[9..11] == c[9..];
    NoSpaces(r);
  }

  /** Digits and capital letters are not white space. */
  lemma NoSpaces(r: string)
    requires forall i :: 0 <= i < |r| ==> IsDigit(r[i]) || IsUpper(r[i])
    ensures Filter(r, NotSpace) == r
  {
    FilterKeepsAll(r, NotSpace);
  }

  /** `formatBI` as evidently intended: reformat only when all twelve digits
      the format needs are there. */
  function FormatBIFixed(bi: string): string
  {
    var cleaned := Digits(bi);
    if |cleaned| >= 12 then cleaned[..9] + "LA" + cleaned[9..12] else bi
  }

  /** The intended formatter either leaves the input alone (fewer than twelve
      digits) or produces a valid BI carrying the first twelve digits in order. */
  lemma FormatBIFixedValid(bi: string)
    ensures |Digits(bi)| < 12 ==> FormatBIFixed(bi) == bi
    ensures |Digits(bi)| >= 12 ==>
      IsValidBI(FormatBIFixed(bi)) && Digits(FormatBIFixed(bi)) == Digits(bi)[..12]
  {
    var c := Digits(bi);
    if |c| >= 12 {
      var r := FormatBIFixed(bi);
      assert r == c[..9] + "LA" + c[9..12];
      NoSpaces(r);
      var twelve := c[..12];
      assert twelve[..9] == c[..9] && twelve[9..] == c[9..12];
      DigitsOfBILayout(twelve);
    }
  }

  /** The digits of `dddddddddLAddd` are its twelve digits. */
  lemma DigitsOfBILayout(c: string)
    requires |c| == 12 && forall i :: 0 <= i < 12 ==> IsDigit(c[i])
    ensures Digits(c[..9] + "LA" + c[9..]) == c
  {
    assert Digits(c[..9] + "LA") == c[..9] by {
      DigitsAppend(c[..9], "LA");
      DigitsOfDigits(c[..9]);
      DigitsOfNone("LA");
    }
    DigitsAppend(c[..9] + "LA", c[9..]);
    DigitsOfDigits(c[9..]);
    assert c[..9] + c[9..] == c;
  }

  /** A well-formed `…LA…` BI is returned unchanged, by both versions. */
  lemma FormatBIKeepsWellFormed(bi: string)
    requires BIShape(bi) && bi[9..11] == "LA"
    ensures FormatBIFixed(bi) == bi
    ensures FormatBI(bi) == bi
  {
    assert bi == bi[..9] + bi[9..11] + bi[11..];
    assert Digits(bi[..9] + bi[9..11]) == bi[..9] by {
      DigitsAppend(bi[..9], bi[9..11]);
      DigitsOfDigits(bi[..9]);
      DigitsOfNone(bi[9..11]);
    }
    DigitsAppend(bi[..9] + bi[9..11], bi[11..]);
    DigitsOfDigits(bi[11..]);
    var c := Digits(bi);
    assert c == bi[..9] + bi[11..];
    assert c[..9] == bi[..9] && c[9..12] == bi[11..];
  }

  /** The `+244 ddd ddd ddd` layout of nine national digits. */
  function PhoneLayout(nine: string): string
    requires |nine| == 9
  {
    "+244 " + nine[..3] + " " + nine[3..6] + " " + nine[6..]
  }

  /** `formatPhone`: `244` plus nine digits, or nine digits, get the
      international layout; anything else is returned as given. */
  function FormatPhone(phone: string): (r: string)
    ensures r == phone || IsValidPhone(r)
  {
    var c := Digits(phone);
    if StartsWith(c, "244") && |c| == 12 then
      DigitsOfLayout(c[3..]);
      PhoneLayout(c[3..])
    else if |c| == 9 then
      DigitsOfLayout(c);
      PhoneLayout(c)
    else phone
  }

  /** The digits of the layout are the country code and the nine digits. */
  lemma DigitsOfLayout(nine: string)
    requires |nine| == 9 && forall i :: 0 <= i < 9 ==> IsDigit(nine[i])
    ensures Digits(PhoneLayout(nine)) == "244" + nine
  {
    var a, b, d := nine[..3], nine[3..6], nine[6..];
    var prefix, sp := "+244 ", " ";
    var x1 := prefix + a;
    assert Digits(x1) == "244" + a by {
      DigitsOfPrefix();
      DigitsOfDigits(a);
      DigitsAppend(prefix, a);
    }
    var x2 := x1 + sp + b;
    assert Digits(x2) == "244" + a + b by {
      DigitsOfDigits(b);
      DigitsAfterSpace(x1, b);
    }
    assert Digits(x2 + sp + d) == "244" + a + b + d by {
      DigitsOfDigits(d);
      DigitsAfterSpace(x2, d);
    }
    assert PhoneLayout(nine) == prefix + a + sp + b + sp + d;
    assert a + b + d == nine;
  }

  lemma DigitsOfPrefix()
    ensures Digits("+244 ") == "244"
  {
    assert Digits(" ") == "" by { assert " "[1..] == ""; }
    assert Digits("4 ") == "4" by { assert "4 "[1..] == " "; }
    assert Digits("44 ") == "44" by { assert "44 "[1..] == "4 "; }
    assert Digits("244 ") == "244" by { assert "244 "[1..] == "44 "; }
    assert "+244 "[1..] == "244 ";
  }

  /** A space and a run of digits add just those digits. */
  lemma DigitsAfterSpace(x: string, y: string)
    requires Digits(y) == y
    ensures Digits(x + " " + y) == Digits(x) + y
  {
    DigitsAppend(x + " ", y);
    DigitsAppend(x, " ");
    DigitsOfNone(" ");
  }

  /** Every reformatted number passes `isValidPhone` and keeps the nine
      national digits; any other input comes back unchanged. */
  lemma FormatPhoneValid(phone: string)
    ensures var c := Digits(phone);
      if (StartsWith(c, "244") && |c| == 12) || |c| == 9 then
        IsValidPhone(FormatPhone(phone)) && Digits(FormatPhone(phone)) == "244" + c[|c| - 9..]
      else FormatPhone(phone) == phone
  {
    var c := Digits(phone);
    if StartsWith(c, "244") && |c| == 12 {
      DigitsOfLayout(c[3..]);
    } else if |c| == 9 {
      DigitsOfLayout(c);
      assert c[|c| - 9..] == c;
    }
  }

  /** Formatting a formatted number changes nothing. */
  lemma FormatPhoneIdempotent(phone: string)
    ensures FormatPhone(FormatPhone(phone)) == FormatPhone(phone)
  {
    var c := Digits(phone);
    if (StartsWith(c, "244") && |c| == 12) || |c| == 9 {
      FormatPhoneValid(phone);
      var nine := c[|c| - 9..];
      assert Digits(FormatPhone(phone)) == "244" + nine;
      assert ("244" + nine)[3..] == nine;
      assert FormatPhone(phone) == PhoneLayout(nine);
    }
  }

  /** `maskBI`: a string of thirteen or more characters keeps its length and
      loses the characters at positions 3-5 and 8-10 to `*`; a shorter one is
      returned as is. */
  function MaskBI(bi: string): (r: string)
    ensures |r| == |bi|
    ensures forall i :: 0 <= i < |bi| ==>
      r[i] == if |bi| >= 13 && (3 <= i < 6 || 8 <= i < 11) then '*' else bi[i]
  {
    if |bi| < 13 then bi else bi[..3] + "***" + bi[6..8] + "***" + bi[11..]
  }

  /** `maskPhone`: a fixed mask, telling only whether the number had the
      country code. */
  function MaskPhone(phone: string): (r: string)
    ensures |phone| < 9 ==> r == phone
    ensures |phone| >= 9 ==> Digits(r) == if StartsWith(Digits(phone), "244") then "2449" else "9"
  {
    DigitsOfMasks();
    if |phone| < 9 then phone
    else if StartsWith(Digits(phone), "244") then "+244 " + NationalMask
    else NationalMask
  }

  /** The national part of a masked number, `9** *** ***`. */
  const NationalMask: string := "9** *** ***"

  /** Two numbers of nine or more characters that agree on having the country
      code mask to the same text, so the mask reveals no digit. */
  lemma MaskPhoneRevealsNothing(p: string, q: string)
    requires |p| >= 9 && |q| >= 9
    requires StartsWith(Digits(p), "244") == StartsWith(Digits(q), "244")
    ensures MaskPhone(p) == MaskPhone(q)
  {
  }

  /** The only digits the two masks show are the country code and the leading 9. */
  lemma DigitsOfMasks()
    ensures Digits(NationalMask) == "9"
    ensures Digits("+244 " + NationalMask) == "2449"
  {
    DigitsOfNationalMask();
    DigitsOfPrefix();
    DigitsAppend("+244 ", NationalMask);
    assert "244" + "9" == "2449";
  }

  lemma DigitsOfNationalMask()
    ensures Digits(NationalMask) == "9"
  {
    var stars := "** *** ***";
    DigitsOfNone(stars);
    assert NationalMask[1..] == stars;
  }

  /** `truncate`: the string itself when it fits, otherwise its first `length`
      characters (none for a negative length) followed by the suffix. */
  function Truncate(str: string, length: int, suffix: string): (r: string)
    ensures |str| <= length ==> r == str
    ensures |str| > length ==>
      var keep := if length < 0 then 0 else length;
      |r| == keep + |suffix| && r[..keep] == str[..keep] && r[keep..] == suffix
  {
    if |str| <= length then str else str[..if length < 0 then 0 else length] + suffix
  }

  // ---------------------------------------------------------------------------
  // FileUtils

  /** `s.lastIndexOf(c)`. */
  function LastIndexOf(s: string, c: char): (i: int)
    ensures -1 <= i < |s|
    ensures i >= 0 ==> s[i] == c
    ensures forall k :: i < k < |s| ==> s[k] != c
  {
    if s == [] then -1
    else if s[|s| - 1] == c then |s| - 1
    else LastIndexOf(s[..|s| - 1], c)
  }

  /** `x >>> 0`. */
  function ToUint32(x: int): nat
  {
    x % 0x1_0000_0000
  }

  /** `getFileExtension`: `slice((lastIndexOf('.') - 1 >>> 0) + 2)`. A missing
      dot, or one in first position, wraps round to a huge start. */
  function GetFileExtension(filename: string): (ext: string)
    ensures |filename| < 0x1_0000_0000 ==>
      var dot := LastIndexOf(filename, '.');
      && ext == (if dot >= 1 then filename[dot + 1..] else "")
      && '.' !in ext
  {
    var dot := LastIndexOf(filename, '.');
    var start := ToUint32(dot - 1) + 2;
    if start >= |filename| then ""
    else
      ToUint32Shift(dot);
      assert forall k :: 0 <= k < |filename| - start ==> filename[start..][k] == filename[start + k];
      filename[start..]
  }

  /** Below 2^32 the unsigned shift is the identity; -1 and -2 wrap to the top. */
  lemma ToUint32Shift(dot: int)
    requires -1 <= dot
    ensures 1 <= dot <= 0x1_0000_0000 ==> ToUint32(dot - 1) == dot - 1
    ensures dot < 1 ==> ToUint32(dot - 1) >= 0x1_0000_0000 - 2
  {
  }

  /** A name and a dot-free extension joined by a dot give the extension back;
      a dot-file such as `.env` has none. */
  lemma ExtensionOfName(name: string, ext: string)
    requires name != [] && '.' !in ext && |name| + 1 + |ext| < 0x1_0000_0000
    ensures GetFileExtension(name + "." + ext) == ext
    ensures GetFileExtension("." + ext) == ""
  {
    var f := name + "." + ext;
    assert f[|name|] == '.';
    assert forall k :: |name| < k < |f| ==> f[k] == ext[k - |name| - 1];
    assert f[|name| + 1..] == ext;
    var g := "." + ext;
    assert forall k :: 0 < k < |g| ==> g[k] == ext[k - 1];
  }

  // ---------------------------------------------------------------------------
  // DateUtils

  /** The day number of a time value: whole days since 1970-01-01 (UTC). */
  function DayOf(t: int): int
  {
    t / Dates.MsPerDay
  }

  /** `getDay()`: 0 for Sunday to 6 for Saturday; 1970-01-01 was a Thursday. */
  function Weekday(day: int): (w: int)
    ensures 0 <= w < 7
  {
    (day + 4) % 7
  }

  lemma WeekdayNext(day: int)
    ensures Weekday(day + 1) == if Weekday(day) == 6 then 0 else Weekday(day) + 1
  {
  }

  /** `isBusinessDay`: Monday to Friday. */
  predicate IsBusinessDay(t: int)
  {
    1 <= Weekday(DayOf(t)) <= 5
  }

  /** Whether a time falls on a business day depends only on its day, and repeats every week. */
  lemma BusinessDayWeekly(t: int, k: int)
    ensures IsBusinessDay(t + k * 7 * Dates.MsPerDay) == IsBusinessDay(t)
    ensures IsBusinessDay(DayOf(t) * Dates.MsPerDay) == IsBusinessDay(t)
  {
    var d := DayOf(t);
    assert t == d * Dates.MsPerDay + t % Dates.MsPerDay;
    assert t + k * 7 * Dates.MsPerDay == (d + 7 * k) * Dates.MsPerDay + t % Dates.MsPerDay;
    assert DayOf(t + k * 7 * Dates.MsPerDay) == d + 7 * k;
    assert Weekday(d + 7 * k) == Weekday(d);
  }

  /** The business days among the days after day `a` up to day `b`. */
  function BusinessDaysBetween(a: int, b: int): nat
    requires a <= b
    decreases b - a
  {
    if a == b then 0
    else BusinessDaysBetween(a, b - 1) + (if 1 <= Weekday(b) <= 5 then 1 else 0)
  }

  /** Every seven consecutive days hold exactly five business days. */
  lemma WeekHasFiveBusinessDays(a: int)
    ensures BusinessDaysBetween(a, a + 7) == 5
  {
    WeekdayNext(a); WeekdayNext(a + 1); WeekdayNext(a + 2); WeekdayNext(a + 3);
    WeekdayNext(a + 4); WeekdayNext(a + 5); WeekdayNext(a + 6);
    assert BusinessDaysBetween(a, a + 7) ==
      BusinessDaysBetween(a, a + 6) + (if 1 <= Weekday(a + 7) <= 5 then 1 else 0);
    assert BusinessDaysBetween(a, a + 6) ==
      BusinessDaysBetween(a, a + 5) + (if 1 <= Weekday(a + 6) <= 5 then 1 else 0);
    assert BusinessDaysBetween(a, a + 5) ==
      BusinessDaysBetween(a, a + 4) + (if 1 <= Weekday(a + 5) <= 5 then 1 else 0);
    assert BusinessDaysBetween(a, a + 4) ==
      BusinessDaysBetween(a, a + 3) + (if 1 <= Weekday(a + 4) <= 5 then 1 else 0);
    assert BusinessDaysBetween(a, a + 3) ==
      BusinessDaysBetween(a, a + 2) + (if 1 <= Weekday(a + 3) <= 5 then 1 else 0);
    assert BusinessDaysBetween(a, a + 2) ==
      BusinessDaysBetween(a, a + 1) + (if 1 <= Weekday(a + 2) <= 5 then 1 else 0);
    assert BusinessDaysBetween(a, a + 1) == (if 1 <= Weekday(a + 1) <= 5 then 1 else 0);
  }

  /** How many single-day steps it takes from `day` to reach a business day. */
  function StepsToBusinessDay(day: int): nat
  {
    match Weekday(day)
    case 5 => 3
    case 6 => 2
    case _ => 1
  }

  /** `addBusinessDays`: step one day at a time, counting the business days
      passed, until `days` of them have been counted. The result is the first
      day with `days` business days after the start, and is itself one. */
  method AddBusinessDays(date: int, days: int) returns (result: int)
    ensures days <= 0 ==> result == date
    ensures days > 0 ==>
      && DayOf(result) > DayOf(date)
      && (result - date) % Dates.MsPerDay == 0
      && IsBusinessDay(result)
      && BusinessDaysBetween(DayOf(date), DayOf(result)) == days
      && BusinessDaysBetween(DayOf(date), DayOf(result) - 1) == days - 1
  {
    result := date;
    var added := 0;
    ghost var steps: nat := 0;
    while added < days
      invariant result == date + steps * Dates.MsPerDay
      invariant days <= 0 ==> steps == 0
      invariant DayOf(result) == DayOf(date) + steps
      invariant days > 0 ==> 0 <= added <= days
      invariant added == BusinessDaysBetween(DayOf(date), DayOf(result))
      invariant days > 0 && added == days ==> steps > 0 && IsBusinessDay(result)
      invariant days > 0 && added == days ==> BusinessDaysBetween(DayOf(date), DayOf(result) - 1) == days - 1
      decreases days - added, StepsToBusinessDay(DayOf(result))
    {
      WeekdayNext(DayOf(result));
      result := result + Dates.MsPerDay;
      steps := steps + 1;
      if IsBusinessDay(result) {
        added := added + 1;
      }
    }
  }

  /** Successive floor divisions: seconds, then minutes, hours and days. */
  lemma FloorSteps(diff: int)
    ensures (diff / 1000) / 60 == diff / 60_000
    ensures (diff / 60_000) / 60 == diff / 3_600_000
    ensures (diff / 3_600_000) / 24 == diff / Dates.MsPerDay
  {
  }

  /** `Há n <unit>`, with the plural `s` after a count above one. */
  function Ago(n: int, unit: string): (r: string)
    ensures |r| > 0 && r[0] == 'H'
  {
    "Há " + IntToString(n) + " " + unit + Plural(n)
  }

  /** `"s"` after a count above one. */
  function Plural(n: int): string
  {
    if n > 1 then "s" else ""
  }

  /** `getRelativeTime`: whole days, else hours, else minutes elapsed, each by
      successive floor divisions, or "just now"; `None` is an invalid date,
      whose `NaN` difference fails every comparison. */
  function GetRelativeTime(date: Option<int>, now: int): (r: string)
    ensures r == "Agora mesmo" <==> date.None? || now - date.value < 60_000
    ensures date.Some? && now - date.value >= Dates.MsPerDay ==>
      var days := (now - date.value) / Dates.MsPerDay;
      days >= 1 && r == Ago(days, "dia")
    ensures date.Some? && 3_600_000 <= now - date.value < Dates.MsPerDay ==>
      var hours := (now - date.value) / 3_600_000;
      1 <= hours < 24 && r == Ago(hours, "hora")
    ensures date.Some? && 60_000 <= now - date.value < 3_600_000 ==>
      var minutes := (now - date.value) / 60_000;
      1 <= minutes < 60 && r == Ago(minutes, "minuto")
  {
    match date
    case None => "Agora mesmo"
    case Some(t) =>
      var diff := now - t;
      var seconds := diff / 1000;
      var minutes := seconds / 60;
      var hours := minutes / 60;
      var days := hours / 24;
      FloorSteps(diff);
      if days > 0 then Ago(days, "dia")
      else if hours > 0 then Ago(hours, "hora")
      else if minutes > 0 then Ago(minutes, "minuto")
      else "Agora mesmo"
  }

  // ---------------------------------------------------------------------------
  // StorageUtils

  /** What a key of the browser's local storage holds, as `get` reads it: the
      JSON of `{value, expires}`, an empty string, or text that does not parse. */
  datatype Stored = Entry(value: Value, expires: Option<int>) | Blank | Garbled

  /** The `expires` field `set` writes: a time `expiresIn` ms from now, or `null`
      when `expiresIn` is falsy (absent or zero). */
  function ExpiryOf(expiresIn: Option<int>, now: int): Option<int>
  {
    if expiresIn.Some? && expiresIn.value != 0 then Some(now + expiresIn.value) else None
  }

  /** An entry that `get` finds expired: a truthy expiry already passed. */
  predicate Expired(expires: Option<int>, now: int)
  {
    expires.Some? && expires.value != 0 && now > expires.value
  }

  /** `get`: the value read (`null` for nothing) and the storage afterwards,
      from which an expired or unparsable entry has been removed. */
  function Lookup(items: map<string, Stored>, key: string, now: int): (Value, map<string, Stored>)
  {
    if key !in items then (Null, items)
    else
      match items[key]
      case Blank => (Null, items)
      case Garbled => (Null, items - {key})
      case Entry(v, expires) => if Expired(expires, now) then (Null, items - {key}) else (v, items)
  }

  /** A value set with an expiry is read back unchanged until that time, and
      after it is read as `null` with the key removed. */
  lemma SetThenGet(items: map<string, Stored>, key: string, v: Value, expiresIn: Option<int>, setAt: int, now: int)
    ensures var stored := items[key := Entry(v, ExpiryOf(expiresIn, setAt))];
      Lookup(stored, key, now)
        == if Expired(ExpiryOf(expiresIn, setAt), now) then (Null, items - {key}) else (v, stored)
  {
    var stored := items[key := Entry(v, ExpiryOf(expiresIn, setAt))];
    assert stored - {key} == items - {key};
  }

  /** A value set without an expiry is read back at any later time. */
  lemma NoExpiryNeverExpires(items: map<string, Stored>, key: string, v: Value, setAt: int, now: int)
    ensures var stored := items[key := Entry(v, ExpiryOf(None, setAt))];
      Lookup(stored, key, now) == (v, stored)
  {
  }

  /** Reading one key leaves every other key as it was, and reading again
      gives the same value without further change. */
  lemma LookupSettles(items: map<string, Stored>, key: string, now: int)
    ensures var (v, after) := Lookup(items, key, now);
      && (forall k :: k != key ==> (k in after <==> k in items) && (k in after ==> after[k] == items[k]))
      && Lookup(after, key, now) == (v, after)
  {
  }

  /** The browser's local storage, as `StorageUtils` uses it. */
  class LocalStorage {
    var items: map<string, Stored>

    constructor ()
      ensures items == map[]
    {
      items := map[];
    }

    /** `StorageUtils.set`. */
    method Set(key: string, value: Value, expiresIn: Option<int>, now: int)
      modifies this
      ensures items == old(items)[key := Entry(value, ExpiryOf(expiresIn, now))]
    {
      items := items[key := Entry(value, ExpiryOf(expiresIn, now))];
    }

    /** `StorageUtils.get`. */
    method Get(key: string, now: int) returns (value: Value)
      modifies this
      ensures (value, items) == Lookup(old(items), key, now)
    {
      if key !in items {
        return Null;
      }
      match items[key]
      case Blank =>
        value := Null;
      case Garbled =>
        items := items - {key};
        value := Null;
      case Entry(v, expires) =>
        if expires.Some? && expires.value != 0 && now > expires.value {
          items := items - {key};
          value := Null;
        } else {
          value := v;
        }
    }
  }
}
