/** The `.jadibot <number>` command (HandleJadibotCommand in
    features/jadibot.go): the typed number is normalised and validated,
    then pairing starts unless the number is active; and the uptime
    rendering FormatDuration. Reply texts are left out. */
module JadibotCommand {
  import opened Wrappers
  import opened Clock
  import opened Text
  import opened JadibotRegistry

  const CountryCode := "62"

  /** The Indonesian mobile prefixes a number must start with. */
  const MobilePrefixes: seq<string> := ["6289", "6281", "6282", "6283", "6285", "6287", "6288"]

  const MinNumberLength := 10
  const MaxNumberLength := 15

  /** The characters stripped from a typed number. */
  predicate IsSeparator(c: char) {
    c == '+' || c == '-' || c == ' '
  }

  /** Removing a character from a concatenation removes it from each part. */
  lemma {:induction false} RemoveCharAppend(x: string, y: string, c: char)
    ensures RemoveChar(x + y, c) == RemoveChar(x, c) + RemoveChar(y, c)
    decreases |x|
  {
    if x != [] {
      assert (x + y)[0] == x[0] && (x + y)[1..] == x[1..] + y;
      RemoveCharAppend(x[1..], y, c);
    } else {
      assert x + y == y;
    }
  }

  /** Every `+`, `-` and space removed, in that order. */
  function StripSeparators(s: string): (r: string)
    ensures forall c :: c in r ==> !IsSeparator(c) && c in s
    ensures (forall c :: c in s ==> !IsSeparator(c)) ==> r == s
  {
    RemoveChar(RemoveChar(RemoveChar(s, '+'), '-'), ' ')
  }

  /** Stripping a concatenation strips each part. */
  lemma StripSeparatorsAppend(x: string, y: string)
    ensures StripSeparators(x + y) == StripSeparators(x) + StripSeparators(y)
  {
    RemoveCharAppend(x, y, '+');
    RemoveCharAppend(RemoveChar(x, '+'), RemoveChar(y, '+'), '-');
    RemoveCharAppend(RemoveChar(RemoveChar(x, '+'), '-'), RemoveChar(RemoveChar(y, '+'), '-'), ' ');
  }

  /** A single character is kept exactly when it is no separator; with
      StripSeparatorsAppend this fixes the stripped form of every text. */
  lemma StripSeparatorsChar(c: char)
    ensures StripSeparators([c]) == if IsSeparator(c) then [] else [c]
  {
    assert [c][1..] == [];
  }

  /** A leading `0` replaced by the country code, unless the number
      already starts with the country code. */
  function WithCountryCode(s: string): (n: string)
    ensures !HasPrefix(n, "0")
    ensures (forall c :: c in s ==> !IsSeparator(c)) ==> forall c :: c in n ==> !IsSeparator(c)
    ensures |n| <= |s| + 1
    ensures HasPrefix(s, "0") ==> n == CountryCode + s[1..]
    ensures !HasPrefix(s, "0") ==> n == s
  {
    if !HasPrefix(s, CountryCode) && HasPrefix(s, "0") then
      var n := CountryCode + s[1..];
      assert forall c :: c in n ==> c in CountryCode || c in s by {
        forall c | c in n ensures c in CountryCode || c in s {
          if c !in CountryCode {
            var i :| 0 <= i < |n| && n[i] == c;
            assert s[i - 1] == c;
          }
        }
      }
      assert n[0] == '6';
      n
    else
      assert HasPrefix(s, CountryCode) ==> s[0] == '6';
      s
  }

  /** The number as the handler normalises it: trimmed, separators
      removed, and given the country code in place of a leading `0`. The
      result never starts with `0`. */
  function NormalizeNumber(args: string): (n: string)
    ensures forall c :: c in n ==> !IsSeparator(c)
    ensures !HasPrefix(n, "0")
    ensures |n| <= |args| + 1
    ensures var s := StripSeparators(TrimSpace(args));
      && (HasPrefix(s, "0") ==> n == CountryCode + s[1..])
      && (!HasPrefix(s, "0") ==> n == s)
  {
    WithCountryCode(StripSeparators(TrimSpace(args)))
  }

  /** Digits have no separators to strip. */
  lemma StripDigits(d: string)
    requires AllDigits(d)
    ensures StripSeparators(d) == d
  {
    assert forall c :: c in d ==> !IsSeparator(c) by {
      forall c | c in d ensures !IsSeparator(c) {
        var i :| 0 <= i < |d| && d[i] == c;
      }
    }
  }

  /** Digits are their own trim. */
  lemma TrimDigits(d: string)
    requires AllDigits(d)
    ensures TrimSpace(d) == d
  {
    if d != [] {
      assert !IsSpace(d[0]) && !IsSpace(d[|d| - 1]);
      TrimSpaceOfTrimmed(d);
    }
  }

  /** A number in local form, a `0` and digits, gets the country code
      instead of the `0`. */
  lemma LocalFormGetsCountryCode(d: string)
    requires AllDigits(d)
    ensures NormalizeNumber("0" + d) == CountryCode + d
  {
    var s := "0" + d;
    assert AllDigits(s);
    TrimDigits(s);
    StripDigits(s);
    assert s[1..] == d;
  }

  /** A number in international form, `+62` and digits, loses the plus. */
  lemma InternationalFormLosesPlus(d: string)
    requires AllDigits(d)
    ensures NormalizeNumber("+" + CountryCode + d) == CountryCode + d
  {
    var t := CountryCode + d;
    var s := "+" + t;
    assert "+" + CountryCode + d == s;
    assert AllDigits(t);
    assert TrimSpace(s) == s by {
      assert !IsSpace(s[0]) && s[|s| - 1] == t[|t| - 1];
      TrimSpaceOfTrimmed(s);
    }
    assert StripSeparators(s) == t by {
      StripSeparatorsAppend("+", t);
      StripDigits(t);
    }
    assert HasPrefix(t, CountryCode);
  }

  /** A separator inside a number without surrounding whitespace makes no
      difference, wherever it stands. */
  lemma SeparatorIgnored(a: string, sep: char, b: string)
    requires a != [] && b != [] && !IsSpace(a[0]) && !IsSpace(b[|b| - 1])
    requires IsSeparator(sep)
    ensures NormalizeNumber(a + [sep] + b) == NormalizeNumber(a + b)
  {
    var s, t := a + [sep] + b, a + b;
    assert s[0] == a[0] && t[0] == a[0];
    assert s[|s| - 1] == b[|b| - 1] && t[|t| - 1] == b[|b| - 1];
    TrimSpaceOfTrimmed(s);
    TrimSpaceOfTrimmed(t);
    assert StripSeparators(s) == StripSeparators(t) by {
      StripSeparatorsAppend(a + [sep], b);
      StripSeparatorsAppend(a, [sep]);
      StripSeparatorsAppend(a, b);
      assert StripSeparators([sep]) == "";
      assert StripSeparators(a + [sep]) == StripSeparators(a);
    }
  }

  /** Whether `n` starts with one of the accepted mobile prefixes. */
  predicate HasMobilePrefix(n: string) {
    exists p :: p in MobilePrefixes && HasPrefix(n, p)
  }

  /** The prefix test looks at the first four characters, and every
      accepted number is an Indonesian mobile number (`628…`). */
  lemma MobilePrefixIsFirstFour(n: string)
    ensures HasMobilePrefix(n) <==> |n| >= 4 && n[..4] in MobilePrefixes
    ensures HasMobilePrefix(n) ==> n[..3] == "628"
  {
    if |n| >= 4 && n[..4] in MobilePrefixes {
      assert HasPrefix(n, n[..4]);
    }
    if HasMobilePrefix(n) {
      var p :| p in MobilePrefixes && HasPrefix(n, p);
      assert n[..4] == p;
      assert n[..3] == p[..3];
    }
  }

  /** Why the command stops. */
  datatype CommandError =
    | Usage
    | BadPrefix
    | BadLength
    | AlreadyRegistered
    | PairingFailed(reason: CreateError)

  /** The validation part of the handler: empty arguments get the usage
      text; the normalised number must carry a mobile prefix and have 10
      to 15 characters. */
  function ValidateNumber(args: string): (v: Result<string, CommandError>)
    ensures v == Err(Usage) <==> args == ""
    ensures v.Ok? <==> (args != "" && HasMobilePrefix(NormalizeNumber(args)) &&
      MinNumberLength <= |NormalizeNumber(args)| <= MaxNumberLength)
    ensures v.Ok? ==> v.value == NormalizeNumber(args)
    ensures v == Err(BadLength) ==> HasMobilePrefix(NormalizeNumber(args))
    ensures v.Err? ==> v.error in {Usage, BadPrefix, BadLength}
  {
    if args == "" then Err(Usage)
    else
      var n := NormalizeNumber(args);
      if !HasMobilePrefix(n) then Err(BadPrefix)
      else if |n| < MinNumberLength || |n| > MaxNumberLength then Err(BadLength)
      else Ok(n)
  }

  /** An accepted number is a non-empty `628…` number without separators. */
  lemma AcceptedNumberShape(args: string)
    requires ValidateNumber(args).Ok?
    ensures var n := ValidateNumber(args).value;
      n != "" && n[..3] == "628" && forall c :: c in n ==> !IsSeparator(c)
  {
    MobilePrefixIsFirstFour(ValidateNumber(args).value);
  }

  /** HandleJadibotCommand: validation, the active-number check, then
      pairing. The pair code is the success value. */
  function HandleJadibotCommand(r: Registry, args: string, now: Millis, out: SetupOutcome): (t: Transition<Result<string, CommandError>>)
    ensures ValidateNumber(args).Err? ==> t == Transition(r, Err(ValidateNumber(args).error))
    ensures t.result == Err(AlreadyRegistered) <==> ValidateNumber(args).Ok? && ValidateNumber(args).value in r.sessions
    ensures t.result == Err(AlreadyRegistered) ==> t.next == r
    ensures t.result.Ok? ==> ValidateNumber(args).Ok?
    ensures t.result.Ok? ==> (var n := ValidateNumber(args).value;
      t.next.pending == r.pending[n := NewSession(now)] && n !in r.pending && n in t.next.folders)
    ensures t.next.sessions == r.sessions
    ensures t.result.Ok? ==> out.pairCode.Some? && t.result.value == out.pairCode.value
    ensures ValidateNumber(args).Ok? && ValidateNumber(args).value !in r.sessions ==>
      var p := CreatePairingSession(r, ValidateNumber(args).value, now, out);
      && t.next == p.next
      && (t.result.Ok? <==> p.result.Ok?)
      && (p.result.Err? ==> t.result == Err(PairingFailed(p.result.error)))
  {
    match ValidateNumber(args)
    case Err(e) => Transition(r, Err(e))
    case Ok(n) =>
      if IsSessionExists(r, n) then Transition(r, Err(AlreadyRegistered))
      else
        var p := CreatePairingSession(r, n, now, out);
        Transition(p.next, match p.result case Ok(code) => Ok(code) case Err(e) => Err(PairingFailed(e)))
  }

  /** The command keeps the registry invariant. */
  lemma CommandPreservesValid(r: Registry, args: string, now: Millis, out: SetupOutcome)
    requires Valid(r)
    ensures Valid(HandleJadibotCommand(r, args, now, out).next)
  {
    if ValidateNumber(args).Ok? {
      AcceptedNumberShape(args);
      CreatePreservesValid(r, ValidateNumber(args).value, now, out);
    }
  }

  /** A number still waiting for its pairing passes the active-number check
      and is then refused by pairing, leaving everything as it was. */
  lemma PendingNumberFailsInPairing(r: Registry, args: string, now: Millis, out: SetupOutcome)
    requires Valid(r) && ValidateNumber(args).Ok? && ValidateNumber(args).value in r.pending
    ensures HandleJadibotCommand(r, args, now, out) == Transition(r, Err(PairingFailed(AlreadyPending)))
  {
    PendingNumberIsRefused(r, ValidateNumber(args).value, now, out);
  }

  /** Days, hours below 24 and minutes below 60. */
  datatype Dhm = Dhm(days: nat, hours: nat, minutes: nat)

  /** Whole hours are whole minutes divided by 60. */
  lemma HoursOfMinutes(d: nat)
    ensures d / (60 * Minute) == (d / Minute) / 60
  {
    var q := d / Minute;
    assert d == Minute * q + d % Minute;
    assert q == 60 * (q / 60) + q % 60;
    assert d == 60 * Minute * (q / 60) + (Minute * (q % 60) + d % Minute);
  }

  /** The split of a duration `d` in milliseconds as FormatDuration takes
      it: whole hours split into days and hours, whole minutes modulo 60. */
  function DurationParts(d: nat): (p: Dhm)
    ensures p.days * 1440 + p.hours * 60 + p.minutes == d / Minute
    ensures p.hours < 24 && p.minutes < 60
  {
    var totalHours := d / (60 * Minute);
    var totalMinutes := d / Minute;
    HoursOfMinutes(d);
    Dhm(totalHours / 24, totalHours % 24, totalMinutes % 60)
  }

  /** The text of a split: "Xh Yj Zm" with days, "Yj Zm" with hours,
      "Zm" otherwise (hari, jam, menit). */
  function RenderDhm(p: Dhm): (r: string)
    ensures r != [] && r[|r| - 1] == 'm'
    ensures 'h' in r <==> p.days > 0
    ensures 'j' in r <==> p.days > 0 || p.hours > 0
  {
    var tail := Unit(p.minutes, "m", "");
    UnitChars(p.minutes, "m", "", 'h');
    UnitChars(p.minutes, "m", "", 'j');
    var withHours := Unit(p.hours, "j ", tail);
    UnitChars(p.hours, "j ", tail, 'h');
    UnitChars(p.hours, "j ", tail, 'j');
    UnitChars(p.days, "h ", withHours, 'h');
    UnitChars(p.days, "h ", withHours, 'j');
    assert tail[|tail| - 1] == 'm';
    assert withHours[|withHours| - 1] == 'm';
    if p.days > 0 then Unit(p.days, "h ", withHours)
    else if p.hours > 0 then withHours
    else tail
  }

  /** FormatDuration of a duration in milliseconds: days only from one
      day on, hours only from one hour on, minutes always. */
  function FormatDuration(d: nat): (r: string)
    ensures r != [] && r[|r| - 1] == 'm'
    ensures 'h' in r <==> d >= 24 * 60 * Minute
    ensures 'j' in r <==> d >= 60 * Minute
  {
    var p := DurationParts(d);
    assert p.days > 0 <==> d >= 24 * 60 * Minute by {
      HoursOfMinutes(d);
    }
    RenderDhm(p)
  }

  /** The split is the only one with hours below 24 and minutes below 60. */
  lemma DurationPartsUnique(d: nat, p: Dhm)
    requires p.hours < 24 && p.minutes < 60
    requires p.days * 1440 + p.hours * 60 + p.minutes == d / Minute
    ensures p == DurationParts(d)
  {
    var q := DurationParts(d);
    assert p.hours * 60 + p.minutes < 1440;
    assert q.hours * 60 + q.minutes < 1440;
    assert p.days == q.days;
    assert p.hours * 60 + p.minutes == q.hours * 60 + q.minutes;
  }

  /** Different splits are rendered differently. */
  lemma RenderDhmInjective(p: Dhm, q: Dhm)
    requires RenderDhm(p) == RenderDhm(q)
    ensures p == q || (p.days == q.days == 0 && p.hours == q.hours == 0 && p.minutes == q.minutes)
  {
    if p.days > 0 {
      assert q.days > 0;
      UnitInjective(p.days, Unit(p.hours, "j ", Unit(p.minutes, "m", "")), q.days, Unit(q.hours, "j ", Unit(q.minutes, "m", "")), "h ");
      UnitInjective(p.hours, Unit(p.minutes, "m", ""), q.hours, Unit(q.minutes, "m", ""), "j ");
      UnitInjective(p.minutes, "", q.minutes, "", "m");
    } else if p.hours > 0 {
      assert q.days == 0 && q.hours > 0;
      UnitInjective(p.hours, Unit(p.minutes, "m", ""), q.hours, Unit(q.minutes, "m", ""), "j ");
      UnitInjective(p.minutes, "", q.minutes, "", "m");
    } else {
      assert q.days == 0 && q.hours == 0;
      UnitInjective(p.minutes, "", q.minutes, "", "m");
    }
  }

  /** Different minutes are rendered differently. */
  lemma FormatDurationInjective(d1: nat, d2: nat)
    requires FormatDuration(d1) == FormatDuration(d2)
    ensures d1 / Minute == d2 / Minute
  {
    RenderDhmInjective(DurationParts(d1), DurationParts(d2));
  }

  /** Two durations are rendered alike exactly when they agree to the
      minute. */
  lemma FormatDurationToTheMinute(d1: nat, d2: nat)
    ensures FormatDuration(d1) == FormatDuration(d2) <==> d1 / Minute == d2 / Minute
  {
    if d1 / Minute == d2 / Minute {
      DurationPartsUnique(d2, DurationParts(d1));
    }
    if FormatDuration(d1) == FormatDuration(d2) {
      FormatDurationInjective(d1, d2);
    }
  }
}
