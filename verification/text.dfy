/** The string primitives of Go's `strings` package that the bot relies on,
    over ASCII text: `TrimSpace`, `Fields`, `Join`, `ToLower`, `HasPrefix`,
    `HasSuffix`, `TrimSuffix`, `Split(..)[0]`, `ReplaceAll` of one character,
    and `%d` formatting of a non-negative integer. */
module Text {

  /** Go's `unicode.IsSpace`, restricted to ASCII. */
  predicate IsSpace(c: char) {
    c == ' ' || c == '\t' || c == '\n' || c == '\r' || c == '\U{000B}' || c == '\U{000C}'
  }

  predicate NoSpace(s: string) {
    forall i :: 0 <= i < |s| ==> !IsSpace(s[i])
  }

  predicate AllSpace(s: string) {
    forall i :: 0 <= i < |s| ==> IsSpace(s[i])
  }

  predicate HasPrefix(s: string, p: string) {
    |p| <= |s| && s[..|p|] == p
  }

  predicate HasSuffix(s: string, p: string) {
    |p| <= |s| && s[|s| - |p|..] == p
  }

  /** `strings.TrimSuffix`: drop one copy of `p` from the end, if present. */
  function TrimSuffix(s: string, p: string): (r: string)
    ensures HasSuffix(s, p) ==> r + p == s
    ensures !HasSuffix(s, p) ==> r == s
  {
    if HasSuffix(s, p) then s[..|s| - |p|] else s
  }

  /** Leading whitespace removed. */
  function TrimLeft(s: string): (r: string)
    ensures |r| <= |s| && r == s[|s| - |r|..]
    ensures r == [] || !IsSpace(r[0])
    ensures forall i :: 0 <= i < |s| - |r| ==> IsSpace(s[i])
  {
    if s != [] && IsSpace(s[0]) then TrimLeft(s[1..]) else s
  }

  /** Trailing whitespace removed. */
  function TrimRight(s: string): (r: string)
    ensures |r| <= |s| && r == s[..|r|]
    ensures r == [] || !IsSpace(r[|r| - 1])
    ensures forall i :: |r| <= i < |s| ==> IsSpace(s[i])
  {
    if s != [] && IsSpace(s[|s| - 1]) then TrimRight(s[..|s| - 1]) else s
  }

  /** `strings.TrimSpace`. */
  function TrimSpace(s: string): (r: string)
    ensures r == [] || (!IsSpace(r[0]) && !IsSpace(r[|r| - 1]))
    ensures r == [] <==> AllSpace(s)
    ensures |r| <= |s|
  {
    TrimRight(TrimLeft(s))
  }

  /** A string with no whitespace at either end is its own trim. */
  lemma TrimSpaceOfTrimmed(s: string)
    requires s == [] || (!IsSpace(s[0]) && !IsSpace(s[|s| - 1]))
    ensures TrimSpace(s) == s
  {
  }

  /** The longest whitespace-free prefix of `s`. */
  function Word(s: string): (w: string)
    ensures |w| <= |s| && w == s[..|w|] && NoSpace(w)
    ensures |w| == |s| || IsSpace(s[|w|])
  {
    if s == [] || IsSpace(s[0]) then [] else [s[0]] + Word(s[1..])
  }

  /** A sequence of words in the sense of `strings.Fields`: each non-empty
      and free of whitespace. */
  predicate Words(ws: seq<string>) {
    forall i :: 0 <= i < |ws| ==> ws[i] != [] && NoSpace(ws[i])
  }

  /** A word in front of words is still words. */
  lemma WordsCons(w: string, rest: seq<string>)
    requires w != [] && NoSpace(w) && Words(rest)
    ensures Words([w] + rest)
  {
    forall i | 0 <= i < |[w] + rest|
      ensures ([w] + rest)[i] != [] && NoSpace(([w] + rest)[i])
    {
      if i > 0 { assert ([w] + rest)[i] == rest[i - 1]; }
    }
  }

  /** `strings.Fields`: the maximal whitespace-free runs of `s`, in order. */
  function Fields(s: string): (ws: seq<string>)
    ensures Words(ws)
    ensures ws == [] <==> AllSpace(s)
    decreases |s|
  {
    var t := TrimLeft(s);
    if t == [] then []
    else
      var w := Word(t);
      assert s[|s| - |t|] == t[0];
      var rest := Fields(t[|w|..]);
      WordsCons(w, rest);
      [w] + rest
  }

  /** `strings.Join`. */
  function Join(ws: seq<string>, sep: string): string {
    if |ws| == 0 then ""
    else if |ws| == 1 then ws[0]
    else ws[0] + sep + Join(ws[1..], sep)
  }

  /** Text that is already in the form `strings.Join(strings.Fields(x), " ")`
      produces: words separated by single spaces, nothing at either end. */
  predicate Normalized(a: string) {
    Join(Fields(a), " ") == a
  }

  /** Whitespace in front of a text does not change its fields. */
  lemma FieldsSkipSpace(s: string)
    requires s != [] && IsSpace(s[0])
    ensures Fields(s) == Fields(s[1..])
  {
  }

  /** A word followed by nothing or by whitespace is the first field. */
  lemma {:induction false} WordOfWord(w: string, rest: string)
    requires w != [] && NoSpace(w)
    requires rest == [] || IsSpace(rest[0])
    ensures Word(w + rest) == w
    decreases |w|
  {
    var s := w + rest;
    if |w| == 1 {
      assert s[1..] == rest;
    } else {
      assert s[1..] == w[1..] + rest;
      WordOfWord(w[1..], rest);
      assert [w[0]] + w[1..] == w;
    }
  }

  lemma FieldsCons(w: string, rest: string)
    requires w != [] && NoSpace(w)
    requires rest == [] || IsSpace(rest[0])
    ensures Fields(w + rest) == [w] + Fields(rest)
  {
    var s := w + rest;
    assert TrimLeft(s) == s;
    WordOfWord(w, rest);
    assert s[|w|..] == rest;
  }

  /** A word, a space, then anything: the word is the first field and the
      rest are the fields of what follows the space. */
  lemma FieldsOfWordSpace(w: string, tail: string)
    requires w != [] && NoSpace(w)
    ensures Fields(w + " " + tail) == [w] + Fields(tail)
  {
    assert w + " " + tail == w + (" " + tail);
    FieldsCons(w, " " + tail);
    FieldsSkipSpace(" " + tail);
    assert (" " + tail)[1..] == tail;
  }

  lemma WordsTail(ws: seq<string>)
    requires Words(ws) && ws != []
    ensures Words(ws[1..])
  {
    forall i | 0 <= i < |ws| - 1 ensures ws[1..][i] != [] && NoSpace(ws[1..][i]) {
      assert ws[1..][i] == ws[i + 1];
    }
  }

  /** `Join` over at least two words: the first, a space, then the rest. */
  lemma JoinCons(ws: seq<string>, sep: string)
    requires |ws| > 1
    ensures Join(ws, sep) == ws[0] + sep + Join(ws[1..], sep)
  {
  }

  /** One step of `FieldsOfJoin`: the first word, then the rest. */
  lemma FieldsOfJoinCons(ws: seq<string>)
    requires |ws| > 1 && ws[0] != [] && NoSpace(ws[0])
    requires Fields(Join(ws[1..], " ")) == ws[1..]
    ensures Fields(Join(ws, " ")) == ws
  {
    JoinCons(ws, " ");
    FieldsOfWordSpace(ws[0], Join(ws[1..], " "));
    HeadTail(ws);
  }

  lemma HeadTail<T>(s: seq<T>)
    requires s != []
    ensures [s[0]] + s[1..] == s
  {
  }

  /** `Fields` undoes a single-space `Join` of words. */
  lemma {:induction false} FieldsOfJoin(ws: seq<string>)
    requires Words(ws)
    ensures Fields(Join(ws, " ")) == ws
    decreases |ws|
  {
    if |ws| <= 1 {
      FieldsOfShortJoin(ws);
    } else {
      WordsTail(ws);
      FieldsOfJoin(ws[1..]);
      FieldsOfJoinCons(ws);
    }
  }

  /** `FieldsOfJoin` for no words or one word. */
  lemma FieldsOfShortJoin(ws: seq<string>)
    requires |ws| <= 1 && (ws != [] ==> ws[0] != [] && NoSpace(ws[0]))
    ensures Fields(Join(ws, " ")) == ws
  {
    if ws == [] {
      FieldsOfEmpty();
    } else {
      var w := ws[0];
      assert Join(ws, " ") == w;
      FieldsOfWord(w);
      HeadTail(ws);
      assert ws[1..] == [];
    }
  }

  lemma FieldsOfEmpty()
    ensures Fields("") == []
  {
    assert AllSpace("");
  }

  /** A single word is its own only field. */
  lemma FieldsOfWord(w: string)
    requires w != [] && NoSpace(w)
    ensures Fields(w) == [w]
  {
    assert TrimLeft(w) == w;
    WordOfWord(w, "");
    assert w + "" == w;
    assert w[|w|..] == "";
    FieldsOfEmpty();
  }

  /** A single-space join of words starts and ends with a non-space. */
  lemma {:induction false} JoinOfWordsEnds(ws: seq<string>)
    requires Words(ws)
    ensures var j := Join(ws, " "); (j == []) == (ws == []) && (j == [] || (!IsSpace(j[0]) && !IsSpace(j[|j| - 1])))
    decreases |ws|
  {
    if |ws| > 1 {
      JoinOfWordsEnds(ws[1..]);
    }
  }

  /** Joining words gives normalized text. */
  lemma JoinIsNormalized(ws: seq<string>)
    requires Words(ws)
    ensures Normalized(Join(ws, " "))
  {
    FieldsOfJoin(ws);
  }

  /** Normalized text has no whitespace at either end. */
  lemma NormalizedEnds(a: string)
    requires Normalized(a)
    ensures a == [] || (!IsSpace(a[0]) && !IsSpace(a[|a| - 1]))
    ensures a == [] <==> Fields(a) == []
  {
    JoinOfWordsEnds(Fields(a));
  }

  function LowerChar(c: char): (d: char)
    ensures !('A' <= d <= 'Z')
    ensures IsSpace(d) <==> IsSpace(c)
  {
    if 'A' <= c <= 'Z' then (c as int + 32) as char else c
  }

  predicate IsLower(s: string) {
    forall i :: 0 <= i < |s| ==> !('A' <= s[i] <= 'Z')
  }

  /** `strings.ToLower` over ASCII letters. */
  function ToLower(s: string): (r: string)
    ensures |r| == |s|
    ensures forall i :: 0 <= i < |s| ==> r[i] == LowerChar(s[i])
    ensures IsLower(r)
    ensures IsLower(s) ==> r == s
  {
    seq(|s|, i requires 0 <= i < |s| => LowerChar(s[i]))
  }

  /** `strings.Split(s, string(c))[0]`: everything before the first `c`. */
  function BeforeFirst(s: string, c: char): (r: string)
    ensures c !in r
    ensures |r| <= |s| && r == s[..|r|]
    ensures |r| < |s| ==> s[|r|] == c
  {
    if s == [] || s[0] == c then [] else [s[0]] + BeforeFirst(s[1..], c)
  }

  /** `strings.ReplaceAll(s, string(c), "")`. */
  function RemoveChar(s: string, c: char): (r: string)
    ensures c !in r
    ensures forall x :: x in r ==> x in s
    ensures c !in s ==> r == s
    ensures |r| <= |s|
  {
    if s == [] then []
    else (if s[0] == c then [] else [s[0]]) + RemoveChar(s[1..], c)
  }

  predicate IsDigit(c: char) {
    '0' <= c <= '9'
  }

  predicate AllDigits(s: string) {
    forall i :: 0 <= i < |s| ==> IsDigit(s[i])
  }

  function DigitChar(d: nat): (c: char)
    requires d < 10
    ensures IsDigit(c)
  {
    ('0' as int + d) as char
  }

  function DigitValue(c: char): nat
    requires IsDigit(c)
  {
    c as int - '0' as int
  }

  /** `fmt.Sprintf("%d", n)` for a non-negative `n`: the shortest decimal
      numeral, with no leading zero except for `0` itself. */
  function Decimal(n: nat): (r: string)
    ensures r != [] && AllDigits(r)
    ensures r[0] == '0' ==> n == 0
  {
    if n < 10 then [DigitChar(n)] else Decimal(n / 10) + [DigitChar(n % 10)]
  }

  /** The value of a numeral. */
  function ParseDecimal(s: string): nat
    requires AllDigits(s)
  {
    if s == [] then 0 else 10 * ParseDecimal(s[..|s| - 1]) + DigitValue(s[|s| - 1])
  }

  /** Reading back a rendered number gives the number. */
  lemma {:induction false} DecimalRoundTrip(n: nat)
    ensures ParseDecimal(Decimal(n)) == n
  {
    if n >= 10 {
      var d := Decimal(n / 10);
      var r := d + [DigitChar(n % 10)];
      assert r[..|r| - 1] == d;
      DecimalRoundTrip(n / 10);
    }
  }

  /** Distinct numbers render differently. */
  lemma DecimalInjective(m: nat, n: nat)
    requires Decimal(m) == Decimal(n)
    ensures m == n
  {
    DecimalRoundTrip(m);
    DecimalRoundTrip(n);
  }

  /** The length of the run of digits `s` starts with. */
  function LeadingDigits(s: string): (n: nat)
    ensures n <= |s|
  {
    if s == [] || !IsDigit(s[0]) then 0 else 1 + LeadingDigits(s[1..])
  }

  /** A numeral followed by a non-digit is exactly the leading digit run. */
  lemma {:induction false} LeadingDigitsOfNumeral(a: string, x: string)
    requires AllDigits(a) && x != [] && !IsDigit(x[0])
    ensures LeadingDigits(a + x) == |a|
    decreases |a|
  {
    if a == [] {
      assert a + x == x;
    } else {
      assert (a + x)[1..] == a[1..] + x;
      LeadingDigitsOfNumeral(a[1..], x);
    }
  }

  /** A numeral followed by a non-digit can be split off in only one way. */
  lemma NumeralPrefixUnique(a: string, x: string, b: string, y: string)
    requires AllDigits(a) && AllDigits(b)
    requires x != [] && !IsDigit(x[0]) && y != [] && !IsDigit(y[0])
    requires a + x == b + y
    ensures a == b && x == y
  {
    LeadingDigitsOfNumeral(a, x);
    LeadingDigitsOfNumeral(b, y);
    assert a == (a + x)[..|a|] && b == (b + y)[..|b|];
    assert x == (a + x)[|a|..] && y == (b + y)[|b|..];
  }

  /** A number followed by its unit mark and whatever comes after. */
  function Unit(n: nat, mark: string, rest: string): string {
    Decimal(n) + mark + rest
  }

  /** A character other than a digit occurs in a unit exactly when it
      occurs in the mark or in what follows. */
  lemma UnitChars(n: nat, mark: string, rest: string, c: char)
    requires !IsDigit(c)
    ensures c in Unit(n, mark, rest) <==> c in mark || c in rest
  {
    var d := Decimal(n);
    assert forall i :: 0 <= i < |d| ==> d[i] != c;
    assert Unit(n, mark, rest) == d + (mark + rest);
  }

  /** A unit's number and what follows it are recovered from the text, as
      the mark does not start with a digit. */
  lemma UnitInjective(n1: nat, r1: string, n2: nat, r2: string, mark: string)
    requires mark != [] && !IsDigit(mark[0])
    requires Unit(n1, mark, r1) == Unit(n2, mark, r2)
    ensures n1 == n2 && r1 == r2
  {
    var a, b := Decimal(n1), Decimal(n2);
    assert a + mark + r1 == a + (mark + r1);
    assert b + mark + r2 == b + (mark + r2);
    NumeralPrefixUnique(a, mark + r1, b, mark + r2);
    assert r1 == (mark + r1)[|mark|..] && r2 == (mark + r2)[|mark|..];
    DecimalInjective(n1, n2);
  }
}
