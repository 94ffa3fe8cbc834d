/** The chat command parser: splits a message text into a lower-case command
    word and its arguments (commands/parser.go). */
module Parser {
  import opened Text

  /** The characters that mark a command, tried in this order. */
  const CommandPrefixes: seq<char> := ['.', '!', '-', '/']

  /** The commands that are recognised even without a prefix character. */
  const AllowedNoPrefix: set<string> := {
    "bot", "menu", "info", "ping", "status", "online", "typing", "record",
    "readstory", "likestory", "storydelay", "jadibot", "listjadibot", "deljadibot"
  }

  /** The triple `(commandName, args, isCommand)` the parser returns. */
  datatype Parsed = Parsed(cmd: string, args: string, isCommand: bool)

  const NotCommand := Parsed("", "", false)

  /** A command word as the parser produces it. */
  predicate IsCommandWord(c: string) {
    c != [] && NoSpace(c) && IsLower(c)
  }

  /** The arguments: the fields after the first, joined by single spaces
      and trimmed; empty when there is no second field. */
  function ArgsOf(parts: seq<string>): (a: string)
    requires parts != [] && Words(parts)
    ensures Normalized(a)
    ensures Fields(a) == parts[1..]
  {
    if |parts| > 1 then
      var rest := parts[1..];
      assert Words(rest) by {
        forall i | 0 <= i < |rest| ensures rest[i] != [] && NoSpace(rest[i]) {
          assert rest[i] == parts[i + 1];
        }
      }
      JoinOfWordsEnds(rest);
      TrimSpaceOfTrimmed(Join(rest, " "));
      JoinIsNormalized(rest);
      FieldsOfJoin(rest);
      TrimSpace(Join(rest, " "))
    else
      ""
  }

  /** The command word taken from the first field. */
  function CommandOf(parts: seq<string>): (c: string)
    requires parts != [] && Words(parts)
    ensures IsCommandWord(c)
    ensures c == ToLower(parts[0])
  {
    ToLower(parts[0])
  }

  /** The parse of trimmed text that starts with a prefix character: the
      fields after the prefix give the command and the arguments. */
  function ParsePrefixed(t: string): (p: Parsed)
    requires t != []
    ensures !p.isCommand ==> p == NotCommand
    ensures p.isCommand ==> IsCommandWord(p.cmd) && Normalized(p.args)
    ensures p.isCommand <==> Fields(t[1..]) != []
    ensures p.isCommand ==> p.cmd == ToLower(Fields(t[1..])[0]) && Fields(p.args) == Fields(t[1..])[1..]
  {
    var parts := Fields(t[1..]);
    if parts == [] then NotCommand
    else Parsed(CommandOf(parts), ArgsOf(parts), true)
  }

  /** The parse of trimmed text without a prefix character: a command only
      when its first word, lower-cased, is allow-listed. */
  function ParseBare(t: string): (p: Parsed)
    ensures !p.isCommand ==> p == NotCommand
    ensures p.isCommand ==> IsCommandWord(p.cmd) && Normalized(p.args) && p.cmd in AllowedNoPrefix
    ensures p.isCommand <==> Fields(t) != [] && ToLower(Fields(t)[0]) in AllowedNoPrefix
    ensures p.isCommand ==> p.cmd == ToLower(Fields(t)[0]) && Fields(p.args) == Fields(t)[1..]
  {
    var parts := Fields(t);
    if parts == [] then NotCommand
    else
      var cmd := CommandOf(parts);
      if cmd in AllowedNoPrefix then Parsed(cmd, ArgsOf(parts), true) else NotCommand
  }

  /** ParseCommand: blank text is no command; a text starting with a prefix
      character is a command when a word follows the prefix; other text is a
      command only when its first word is allow-listed. */
  function ParseCommand(text: string): (p: Parsed)
    ensures !p.isCommand ==> p == NotCommand
    ensures p.isCommand ==> IsCommandWord(p.cmd) && Normalized(p.args)
    ensures AllSpace(text) ==> p == NotCommand
    ensures p.isCommand && TrimSpace(text)[0] !in CommandPrefixes ==> p.cmd in AllowedNoPrefix
    ensures var t := TrimSpace(text);
      p.isCommand <==> t != [] && (if t[0] in CommandPrefixes then Fields(t[1..]) != []
        else Fields(t) != [] && ToLower(Fields(t)[0]) in AllowedNoPrefix)
    ensures p.isCommand ==> (var t := TrimSpace(text);
      var parts := if t[0] in CommandPrefixes then Fields(t[1..]) else Fields(t);
      parts != [] && p.cmd == ToLower(parts[0]) && Fields(p.args) == parts[1..])
  {
    var t := TrimSpace(text);
    if t == "" then NotCommand
    else if t[0] in CommandPrefixes then ParsePrefixed(t)
    else ParseBare(t)
  }

  /** BuildCommandString: the command alone, or command, one space, arguments. */
  function BuildCommandString(cmd: string, args: string): string {
    if args == "" then cmd else cmd + " " + args
  }

  /** Normalized text is determined by its fields. */
  lemma NormalizedByFields(x: string, y: string)
    requires Normalized(x) && Normalized(y) && Fields(x) == Fields(y)
    ensures x == y
  {
  }

  /** The command string of a command word and normalized arguments is
      itself normalized text whose fields are the command and then the
      argument fields. */
  lemma BuildCommandStringFields(c: string, a: string)
    requires IsCommandWord(c) && Normalized(a)
    ensures Fields(BuildCommandString(c, a)) == [c] + Fields(a)
    ensures Normalized(BuildCommandString(c, a))
  {
    NormalizedEnds(a);
    if a == "" {
      FieldsCons(c, "");
      assert c + "" == c;
    } else {
      FieldsOfWordSpace(c, a);
      var ws := [c] + Fields(a);
      assert ws[1..] == Fields(a);
      assert Join(ws, " ") == c + " " + Join(Fields(a), " ");
    }
  }

  /** The first field of a command string is the command word and the
      arguments computed from its fields are the arguments it was built from. */
  lemma CommandAndArgsOfBuild(c: string, a: string)
    requires IsCommandWord(c) && Normalized(a)
    ensures var parts := Fields(BuildCommandString(c, a));
      parts != [] && CommandOf(parts) == c && ArgsOf(parts) == a
  {
    var parts := Fields(BuildCommandString(c, a));
    BuildCommandStringFields(c, a);
    assert parts[0] == c && parts[1..] == Fields(a);
    NormalizedByFields(ArgsOf(parts), a);
  }

  /** A prefix character followed by text that does not end in whitespace
      is already trimmed. */
  lemma PrefixedIsTrimmed(prefix: char, b: string)
    requires prefix in CommandPrefixes
    requires b == [] || !IsSpace(b[|b| - 1])
    ensures TrimSpace([prefix] + b) == [prefix] + b
  {
    var text := [prefix] + b;
    assert !IsSpace(text[0]);
    assert !IsSpace(text[|text| - 1]);
    TrimSpaceOfTrimmed(text);
  }

  /** Parsing a prefixed command string gives back the command and the
      arguments it was built from, whichever prefix is used. */
  lemma ParseBuildRoundTrip(prefix: char, c: string, a: string)
    requires prefix in CommandPrefixes
    requires IsCommandWord(c) && Normalized(a)
    ensures ParseCommand([prefix] + BuildCommandString(c, a)) == Parsed(c, a, true)
  {
    var b := BuildCommandString(c, a);
    var text := [prefix] + b;
    BuildCommandStringFields(c, a);
    NormalizedEnds(b);
    PrefixedIsTrimmed(prefix, b);
    assert text[1..] == b;
    CommandAndArgsOfBuild(c, a);
    var parts := Fields(b);
    assert ParsePrefixed(text) == Parsed(CommandOf(parts), ArgsOf(parts), true);
    assert ParseCommand(text) == ParsePrefixed(text);
  }

  /** Without a prefix, a command string parses back exactly when its
      command is allow-listed; otherwise it is no command at all. */
  lemma ParseUnprefixed(c: string, a: string)
    requires IsCommandWord(c) && Normalized(a)
    requires c[0] !in CommandPrefixes
    ensures c in AllowedNoPrefix ==> ParseCommand(BuildCommandString(c, a)) == Parsed(c, a, true)
    ensures c !in AllowedNoPrefix ==> ParseCommand(BuildCommandString(c, a)) == NotCommand
  {
    var b := BuildCommandString(c, a);
    BuildCommandStringFields(c, a);
    NormalizedEnds(b);
    TrimSpaceOfTrimmed(b);
    assert b[0] == c[0];
    CommandAndArgsOfBuild(c, a);
  }

  /** Every command the parser finds is in canonical form: written back
      with any prefix character it parses to itself, so parsing loses
      nothing but spacing and letter case. */
  lemma ParseIsCanonical(text: string, prefix: char)
    requires prefix in CommandPrefixes
    ensures var p := ParseCommand(text);
      p.isCommand ==> ParseCommand([prefix] + BuildCommandString(p.cmd, p.args)) == p
  {
    var p := ParseCommand(text);
    if p.isCommand {
      ParseBuildRoundTrip(prefix, p.cmd, p.args);
    }
  }

  /** Whitespace in front of a text does not change its fields. */
  lemma {:induction false} FieldsSkipSpaces(sep: string, tail: string)
    requires AllSpace(sep)
    ensures Fields(sep + tail) == Fields(tail)
    decreases |sep|
  {
    if sep != [] {
      FieldsSkipSpace(sep + tail);
      assert (sep + tail)[1..] == sep[1..] + tail;
      FieldsSkipSpaces(sep[1..], tail);
    } else {
      assert sep + tail == tail;
    }
  }

  /** A word followed by a run of whitespace is the first field. */
  lemma FieldsOfWordSep(w: string, sep: string, tail: string)
    requires w != [] && NoSpace(w)
    requires sep != [] && AllSpace(sep)
    ensures Fields(w + sep + tail) == [w] + Fields(tail)
  {
    assert w + sep + tail == w + (sep + tail);
    FieldsCons(w, sep + tail);
    FieldsSkipSpaces(sep, tail);
  }

  /** The fields of three words separated by runs of whitespace. */
  lemma FieldsOfThreeWords(w: string, sep1: string, a: string, sep2: string, b: string)
    requires w != [] && NoSpace(w) && a != [] && NoSpace(a) && b != [] && NoSpace(b)
    requires sep1 != [] && AllSpace(sep1) && sep2 != [] && AllSpace(sep2)
    ensures Fields(w + sep1 + a + sep2 + b) == [w, a, b]
  {
    var tail := a + sep2 + b;
    assert w + sep1 + a + sep2 + b == w + sep1 + tail;
    FieldsOfWordSep(a, sep2, b);
    FieldsOfWord(b);
    FieldsOfWordSep(w, sep1, tail);
    ThreeInARow(w, a, b);
  }

  /** Three elements appended one after another. */
  lemma ThreeInARow<T>(x: T, y: T, z: T)
    ensures [x] + ([y] + [z]) == [x, y, z]
  {
  }

  /** The only normalized text whose fields are two given words. */
  lemma NormalizedOfTwoWords(x: string, a: string, b: string)
    requires a != [] && NoSpace(a) && b != [] && NoSpace(b)
    requires Normalized(x) && Fields(x) == [a, b]
    ensures x == a + " " + b
  {
    JoinCons([a, b], " ");
    assert Join([a, b], " ") == a + " " + b;
    JoinIsNormalized([a, b]);
    FieldsOfJoin([a, b]);
    NormalizedByFields(x, a + " " + b);
  }

  /** Runs of whitespace between the words of a prefixed command, and the
      letter case of the command word, are ignored: the arguments come out
      separated by single spaces. */
  lemma ParseSpacedPrefixed(prefix: char, w: string, sep1: string, a: string, sep2: string, b: string)
    requires prefix in CommandPrefixes
    requires w != [] && NoSpace(w) && a != [] && NoSpace(a) && b != [] && NoSpace(b)
    requires sep1 != [] && AllSpace(sep1) && sep2 != [] && AllSpace(sep2)
    ensures ParseCommand([prefix] + w + sep1 + a + sep2 + b) == Parsed(ToLower(w), a + " " + b, true)
  {
    var text := [prefix] + w + sep1 + a + sep2 + b;
    assert !IsSpace(text[0]) && text[|text| - 1] == b[|b| - 1];
    TrimSpaceOfTrimmed(text);
    assert text[1..] == w + sep1 + a + sep2 + b;
    FieldsOfThreeWords(w, sep1, a, sep2, b);
    var p := ParseCommand(text);
    NormalizedOfTwoWords(p.args, a, b);
  }

  /** Without a prefix, spacing and letter case are ignored in the same way,
      and the text is a command exactly when its lower-cased first word is
      allow-listed. */
  lemma ParseSpacedBare(w: string, sep1: string, a: string, sep2: string, b: string)
    requires w != [] && NoSpace(w) && a != [] && NoSpace(a) && b != [] && NoSpace(b)
    requires w[0] !in CommandPrefixes
    requires sep1 != [] && AllSpace(sep1) && sep2 != [] && AllSpace(sep2)
    ensures ToLower(w) in AllowedNoPrefix ==>
      ParseCommand(w + sep1 + a + sep2 + b) == Parsed(ToLower(w), a + " " + b, true)
    ensures ToLower(w) !in AllowedNoPrefix ==> ParseCommand(w + sep1 + a + sep2 + b) == NotCommand
  {
    var text := w + sep1 + a + sep2 + b;
    assert text[0] == w[0] && text[|text| - 1] == b[|b| - 1];
    TrimSpaceOfTrimmed(text);
    FieldsOfThreeWords(w, sep1, a, sep2, b);
    var p := ParseCommand(text);
    if p.isCommand {
      NormalizedOfTwoWords(p.args, a, b);
    }
  }
}
