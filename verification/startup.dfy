/** The helpers of the bot's start-up and main connection loop (main.go):
    masking the bot's number for display, reading a menu choice, the
    reconnect back-off, the list of saved sessions and the choice of
    pairing method. */
module Startup {
  import opened Wrappers
  import opened Text
  import opened Files

  /** `k` asterisks. */
  function Stars(k: nat): (r: string)
    ensures |r| == k && forall i :: 0 <= i < k ==> r[i] == '*'
  {
    seq(k, _ => '*')
  }

  /** censorNumber: a number longer than 9 characters keeps its first 5 and
      last 4 characters and has every other character replaced by '*'. */
  function CensorNumber(number: string): (r: string)
    ensures |r| == |number|
    ensures |number| <= 9 ==> r == number
    ensures |number| > 9 ==>
      && r[..5] == number[..5]
      && r[|r| - 4..] == number[|number| - 4..]
      && forall i :: 5 <= i < |r| - 4 ==> r[i] == '*'
  {
    if |number| <= 9 then number
    else
      var stars := |number| - 5 - 4;
      if stars < 1 then number
      else number[..5] + Stars(stars) + number[|number| - 4..]
  }

  /** Every character that is not masked is the number's own. */
  lemma CensorNumberRevealsOnlyEnds(number: string, i: nat)
    requires i < |number|
    ensures CensorNumber(number)[i] == number[i] || CensorNumber(number)[i] == '*'
    ensures |number| > 9 && 5 <= i < |number| - 4 ==> CensorNumber(number)[i] == '*'
  {
    var r := CensorNumber(number);
    if |number| > 9 {
      if i < 5 {
        assert r[i] == r[..5][i];
      } else if i >= |number| - 4 {
        assert r[i] == r[|r| - 4..][i - (|r| - 4)];
      }
    }
  }

  /** Censoring an already censored number changes nothing. */
  lemma CensorNumberIdempotent(number: string)
    ensures CensorNumber(CensorNumber(number)) == CensorNumber(number)
  {
    var r := CensorNumber(number);
    var rr := CensorNumber(r);
    if |number| > 9 {
      forall i | 0 <= i < |r| ensures rr[i] == r[i] {
        if i < 5 {
          assert rr[i] == rr[..5][i] && r[i] == r[..5][i];
        } else if i >= |r| - 4 {
          assert rr[i] == rr[|rr| - 4..][i - (|r| - 4)];
          assert r[i] == r[|r| - 4..][i - (|r| - 4)];
        }
      }
    }
  }

  /** parseChoice: `parsed` is the integer read from the input, `None`
      when none can be read. A choice from 1 to `maxOptions` becomes its
      zero-based index; anything else is -1. */
  function ParseChoice(parsed: Option<int>, maxOptions: int): (idx: int)
    ensures idx == -1 || 0 <= idx < maxOptions
    ensures idx >= 0 <==> parsed.Some? && 1 <= parsed.value <= maxOptions
    ensures idx >= 0 ==> parsed == Some(idx + 1)
  {
    if parsed.None? || parsed.value < 1 || parsed.value > maxOptions then -1 else parsed.value - 1
  }

  /** Choosing the option shown as number `i + 1` selects index `i`. */
  lemma ParseChoiceRoundTrip(i: nat, maxOptions: int)
    requires i < maxOptions
    ensures ParseChoice(Some(i + 1), maxOptions) == i
  {
  }

  /** The longest wait of the main connection loop, in seconds. */
  const MaxReconnectDelaySeconds := 60

  /** The wait after the given number of failed attempts: five seconds per
      attempt, capped at one minute. */
  function ReconnectDelaySeconds(attempts: nat): (d: nat)
    ensures d <= MaxReconnectDelaySeconds
    ensures d <= 5 * attempts
    ensures d == 5 * attempts || d == MaxReconnectDelaySeconds
  {
    var delay := attempts * 5;
    if delay > MaxReconnectDelaySeconds then MaxReconnectDelaySeconds else delay
  }

  /** The wait never shrinks as failures accumulate. */
  lemma ReconnectDelayMonotonic(a: nat, b: nat)
    requires a <= b
    ensures ReconnectDelaySeconds(a) <= ReconnectDelaySeconds(b)
  {
  }

  /** A `.db` file that names a session. */
  predicate IsSessionFile(e: DirEntry) {
    IsDbFile(e) && Stem(e) != ""
  }

  /** getExistingPhoneNumbers over a listing (`None` when it cannot be
      read): the stems of the session files, in listing order. */
  function ExistingPhoneNumbers(listing: Option<seq<DirEntry>>): (numbers: seq<string>)
    ensures listing.None? ==> numbers == []
    ensures listing.Some? ==> numbers == SessionStems(listing.value)
    ensures listing.Some? ==> forall x :: x in numbers <==>
      exists e :: e in listing.value && !e.isDir && HasSuffix(e.name, DbSuffix) && Stem(e) == x && x != ""
  {
    if listing.None? then [] else SessionStems(listing.value)
  }

  /** The stems of the session files among `entries`, in order. */
  function SessionStems(entries: seq<DirEntry>): (numbers: seq<string>)
    ensures |numbers| <= |entries|
    ensures forall x :: x in numbers <==> exists e :: e in entries && IsSessionFile(e) && Stem(e) == x
    ensures forall i :: 0 <= i < |numbers| ==> numbers[i] != ""
  {
    if entries == [] then []
    else
      var e := entries[0];
      var rest := SessionStems(entries[1..]);
      assert forall x :: x in entries <==> x == e || x in entries[1..];
      if IsSessionFile(e) then [Stem(e)] + rest else rest
  }

  /** The stems of a listing are those of its parts, in order. */
  lemma {:induction false} SessionStemsAppend(a: seq<DirEntry>, b: seq<DirEntry>)
    ensures SessionStems(a + b) == SessionStems(a) + SessionStems(b)
    decreases |a|
  {
    if a == [] {
      assert a + b == b;
    } else {
      assert (a + b)[0] == a[0] && (a + b)[1..] == a[1..] + b;
      SessionStemsAppend(a[1..], b);
    }
  }

  /** A single entry contributes its stem exactly when it is a session
      file; with SessionStemsAppend this fixes the order of the numbers. */
  lemma SessionStemsOne(e: DirEntry)
    ensures SessionStems([e]) == if IsSessionFile(e) then [Stem(e)] else []
  {
    assert [e][1..] == [];
  }

  /** The user's choice between a pairing code (1) and a QR code (2). */
  datatype PairingMethod = PairingCode | QrCode

  /** The pairing method at start-up. `envValue` is the environment
      setting and `envParsed` the integer read from it; `sessionValid`
      whether a usable session exists; `typed` the integer read from the
      terminal. `None` means the program exits on an invalid choice. */
  function ChoosePairingMethod(envValue: string, envParsed: Option<int>, sessionValid: bool, typed: Option<int>): (m: Option<PairingMethod>)
    ensures envValue != "" ==> m == Some(if envParsed == Some(1) then PairingCode else QrCode)
    ensures envValue == "" && sessionValid ==> m == Some(QrCode)
    ensures m.None? <==> envValue == "" && !sessionValid && typed != Some(1) && typed != Some(2)
    ensures envValue == "" && !sessionValid && typed == Some(1) ==> m == Some(PairingCode)
    ensures envValue == "" && !sessionValid && typed == Some(2) ==> m == Some(QrCode)
  {
    if envValue != "" then
      var choice := if envParsed.None? || (envParsed.value != 1 && envParsed.value != 2) then 2 else envParsed.value;
      Some(if choice == 1 then PairingCode else QrCode)
    else if sessionValid then Some(QrCode)
    else
      var choice := typed.GetOr(0);
      if choice != 1 && choice != 2 then None
      else Some(if choice == 1 then PairingCode else QrCode)
  }

  /** A pairing code is used only when 1 is chosen: in the environment, or
      typed when no environment value and no usable session exist. Every
      other successful start pairs by QR code. */
  lemma PairingCodeOnlyOnOne(envValue: string, envParsed: Option<int>, sessionValid: bool, typed: Option<int>)
    ensures ChoosePairingMethod(envValue, envParsed, sessionValid, typed) == Some(PairingCode) <==>
      (envValue != "" && envParsed == Some(1)) || (envValue == "" && !sessionValid && typed == Some(1))
    ensures ChoosePairingMethod(envValue, envParsed, sessionValid, typed) == Some(QrCode) <==>
      (envValue != "" && envParsed != Some(1)) || (envValue == "" && (sessionValid || typed == Some(2)))
  {
  }
}
