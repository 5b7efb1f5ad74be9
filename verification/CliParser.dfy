/** The command-line parser of the CLI: a quote-aware word splitter and a parameter parser. */
module CliParser {
  import opened Common
  import Text

  datatype ParamMetadata = ParamMetadata(name: string, isDeferred: bool)

  datatype CommandMetadata = CommandMetadata(mainParam: Option<string>, params: seq<ParamMetadata>)

  datatype ParseError =
    | NoMain | BadEscape(name: string) | Repeated(name: string) | NoValue(name: string) | Unknown(name: string)

  /** Values read from the line, and the parameters whose value is asked for afterwards. */
  datatype Parsed = Parsed(values: map<string, string>, deferred: seq<string>)

  /** Decodes escape sequences; None on an invalid one. */
  type Unescape = string -> Option<string>

  const QUOTE := '\"'
  const BACKSLASH := '\\'

  /** Rust's `char::is_whitespace`. */
  predicate IsWhitespace(c: char) {
    var n := c as int;
    || 0x09 <= n <= 0x0D || n == 0x20 || n == 0x85 || n == 0xA0 || n == 0x1680 || 0x2000 <= n <= 0x200A
    || n == 0x2028 || n == 0x2029 || n == 0x202F || n == 0x205F || n == 0x3000
  }

  function TrimStart(s: string): (r: string)
    ensures |r| <= |s| && r == s[|s| - |r|..]
    ensures r != "" ==> !IsWhitespace(r[0])
    ensures forall i :: 0 <= i < |s| - |r| ==> IsWhitespace(s[i])
  {
    if s != "" && IsWhitespace(s[0]) then TrimStart(s[1..]) else s
  }

  function TrimEnd(s: string): (r: string)
    ensures r <= s
    ensures r != "" ==> !IsWhitespace(r[|r| - 1])
    ensures forall i :: |r| <= i < |s| ==> IsWhitespace(s[i])
  {
    if s != "" && IsWhitespace(s[|s| - 1]) then TrimEnd(s[..|s| - 1]) else s
  }

  function Trim(s: string): (r: string)
    ensures |r| <= |s|
  {
    TrimEnd(TrimStart(s))
  }

  // ----- splitting off a word -----

  /** Where the first word of `s` ends: at the first whitespace outside quotes, or at the end. */
  function WordEnd(s: string, quoted: bool, escaped: bool): (n: nat)
    ensures n <= |s|
  {
    if s == "" || (IsWhitespace(s[0]) && !quoted) then 0
    else 1 + WordEnd(s[1..], if !escaped && s[0] == QUOTE then !quoted else quoted, s[0] == BACKSLASH)
  }

  function FirstWord(line: string): (r: (string, string))
    ensures r.0 != "" ==> |r.1| < |line|
  {
    var s := Trim(line);
    var n := WordEnd(s, false, false);
    if n == |s| then (s, "") else (s[..n], TrimStart(s[n..]))
  }

  lemma WordEndStep(s: string, pos: nat, quoted: bool, escaped: bool)
    requires pos < |s|
    ensures WordEnd(s[pos..], quoted, escaped) ==
      if IsWhitespace(s[pos]) && !quoted then 0
      else 1 + WordEnd(s[pos + 1..], if !escaped && s[pos] == QUOTE then !quoted else quoted, s[pos] == BACKSLASH)
  {
    assert s[pos..][1..] == s[pos + 1..];
  }

  /** `_split_first_word`: one pass with two flags. */
  method SplitFirstWord(line: string) returns (word: string, tail: string)
    ensures (word, tail) == FirstWord(line)
  {
    var isQuoteEscape, isWhitespaceEscape := false, false;
    var s := Trim(line);
    var pos := 0;
    while pos < |s|
      invariant 0 <= pos <= |s|
      invariant WordEnd(s, false, false) == pos + WordEnd(s[pos..], isWhitespaceEscape, isQuoteEscape)
    {
      var ch := s[pos];
      WordEndStep(s, pos, isWhitespaceEscape, isQuoteEscape);
      if IsWhitespace(ch) && !isWhitespaceEscape {
        return s[..pos], TrimStart(s[pos..]);
      }
      if !isQuoteEscape && ch == QUOTE {
        isWhitespaceEscape := !isWhitespaceEscape;
      }
      isQuoteEscape := ch == BACKSLASH;
      pos := pos + 1;
    }
    return s, "";
  }

  function TrimQuotes(s: string): string {
    if |s| > 1 && s[0] == QUOTE && s[|s| - 1] == QUOTE then s[1..|s| - 1] else s
  }

  /** `splitn(2, '=')`: the name, and the value when there is an equals sign. */
  function NameAndValue(word: string): (string, Option<string>) {
    var at := Text.FindFrom(word, "=", 0);
    if at.None? then (word, None) else (word[..at.value], Some(word[at.value + 1..]))
  }

  function FindParam(params: seq<ParamMetadata>, name: string): (r: Option<ParamMetadata>)
    ensures r.Some? ==> r.value in params && r.value.name == name
    ensures r.None? ==> forall p :: p in params ==> p.name != name
  {
    if params == [] then None
    else if params[0].name == name then Some(params[0])
    else FindParam(params[1..], name)
  }

  // ----- parsing -----

  /** What one word does to the values read so far. */
  function WordParsed(cmd: CommandMetadata, unescape: Unescape, word: string, so: Parsed): Result<Parsed, ParseError> {
    var (name, value) := NameAndValue(word);
    if name in so.values then Err(Repeated(name))
    else
      var param := FindParam(cmd.params, name);
      if param.None? then Err(Unknown(name))
      else if value.Some? then
        var v := unescape(TrimQuotes(value.value));
        if v.None? then Err(BadEscape(name)) else Ok(so.(values := so.values[name := v.value]))
      else if param.value.isDeferred then Ok(so.(deferred := so.deferred + [name]))
      else Err(NoValue(name))
  }

  /** The words of a line; each one strictly shortens what is left. */
  function Words(line: string): seq<string>
    decreases |line|
  {
    var (word, tail) := FirstWord(line);
    if word == "" then [] else [word] + Words(tail)
  }

  function WordsParsed(cmd: CommandMetadata, unescape: Unescape, words: seq<string>, so: Parsed)
    : Result<Parsed, ParseError>
  {
    if words == [] then Ok(so)
    else
      var next := WordParsed(cmd, unescape, words[0], so);
      if next.Err? then next else WordsParsed(cmd, unescape, words[1..], next.value)
  }

  /** The main parameter is the first word, the others are assignments. */
  function LineParsed(cmd: CommandMetadata, unescape: Unescape, words: seq<string>): Result<Parsed, ParseError> {
    if cmd.mainParam.None? then WordsParsed(cmd, unescape, words, Parsed(map[], []))
    else if words == [] then Err(NoMain)
    else
      var v := unescape(TrimQuotes(words[0]));
      if v.None? then Err(BadEscape(cmd.mainParam.value))
      else WordsParsed(cmd, unescape, words[1..], Parsed(map[cmd.mainParam.value := v.value], []))
  }

  lemma WordsStep(line: string)
    ensures var (word, tail) := FirstWord(line);
      Words(line) == if word == "" then [] else [word] + Words(tail)
  {
  }

  /** The body of the parameter loop. */
  method ParseWord(cmd: CommandMetadata, unescape: Unescape, word: string, so: Parsed)
    returns (r: Result<Parsed, ParseError>)
    ensures r == WordParsed(cmd, unescape, word, so)
  {
    var (name, value) := NameAndValue(word);
    if name in so.values {
      return Err(Repeated(name));
    }
    var param := FindParam(cmd.params, name);
    if param.None? {
      return Err(Unknown(name));
    }
    if value.Some? {
      var v := unescape(TrimQuotes(value.value));
      if v.None? {
        return Err(BadEscape(name));
      }
      return Ok(so.(values := so.values[name := v.value]));
    }
    if param.value.isDeferred {
      return Ok(so.(deferred := so.deferred + [name]));
    }
    return Err(NoValue(name));
  }

  /** `_parse_params`, up to the prompt for deferred values.  The loop ends because every non-empty word
      leaves a strictly shorter tail. */
  method ParseParams(cmd: CommandMetadata, unescape: Unescape, params: string)
    returns (r: Result<Parsed, ParseError>)
    ensures r == LineParsed(cmd, unescape, Words(params))
  {
    var line := params;
    ghost var words := Words(params);
    var values: map<string, string>, deferred := map[], [];
    if cmd.mainParam.Some? {
      var word, tail := SplitFirstWord(line);
      line := tail;
      if word == "" {
        return Err(NoMain);
      }
      var v := unescape(TrimQuotes(word));
      if v.None? {
        return Err(BadEscape(cmd.mainParam.value));
      }
      values := values[cmd.mainParam.value := v.value];
      words := words[1..];
    }
    while true
      invariant words == Words(line)
      invariant LineParsed(cmd, unescape, Words(params)) == WordsParsed(cmd, unescape, words, Parsed(values, deferred))
      decreases |line|
    {
      var word, tail := SplitFirstWord(line);
      if word == "" {
        return Ok(Parsed(values, deferred));
      }
      WordsStep(line);
      line := tail;
      words := words[1..];
      var next := ParseWord(cmd, unescape, word, Parsed(values, deferred));
      if next.Err? {
        return next;
      }
      values, deferred := next.value.values, next.value.deferred;
    }
  }

  // ----- printing, and the round trip -----

  function Quoted(v: string): string { [QUOTE] + v + [QUOTE] }

  /** A value on a line: in quotes, or bare. */
  datatype Token = InQuotes(text: string) | Bare(text: string)

  function Shown(t: Token): string {
    match t
    case InQuotes(v) => Quoted(v)
    case Bare(v) => v
  }

  function Assignment(name: string, value: Token): string { name + "=" + Shown(value) }

  function ArgWords(args: seq<(string, Token)>): seq<string> {
    seq(|args|, i requires 0 <= i < |args| => Assignment(args[i].0, args[i].1))
  }

  function PrintedWords(main: Option<Token>, args: seq<(string, Token)>): seq<string> {
    (if main.Some? then [Shown(main.value)] else []) + ArgWords(args)
  }

  function Printed(main: Option<Token>, args: seq<(string, Token)>): string {
    Text.Join(PrintedWords(main, args), " ")
  }

  predicate NoWhitespace(s: string) { forall i :: 0 <= i < |s| ==> !IsWhitespace(s[i]) }

  /** A value without quote or backslash, and without whitespace if it is bare. */
  predicate PlainToken(t: Token) {
    QUOTE !in t.text && BACKSLASH !in t.text && (t.Bare? ==> NoWhitespace(t.text))
  }

  /** A main parameter that can be seen. */
  predicate PlainMain(t: Token) { PlainToken(t) && (t.Bare? ==> t.text != "") }

  predicate PlainName(name: string) { '=' !in name && QUOTE !in name && NoWhitespace(name) }

  /** A line that starts and ends outside whitespace. */
  predicate Tight(s: string) {
    s != "" && !IsWhitespace(s[0]) && !IsWhitespace(s[|s| - 1])
  }

  /** A word that the splitter takes whole, at the end of the line and before a blank. */
  predicate Sealed(w: string) {
    Tight(w) && WordEnd(w, false, false) == |w| && WordEnd(w + " ", false, false) == |w|
  }

  lemma {:induction false} SealedBefore(w: string, tail: string, quoted: bool, escaped: bool)
    requires WordEnd(w + " ", quoted, escaped) == |w|
    ensures WordEnd(w + " " + tail, quoted, escaped) == |w|
  {
    if w != "" {
      assert (w + " ")[1..] == w[1..] + " ";
      assert (w + " " + tail)[1..] == w[1..] + " " + tail;
      SealedBefore(w[1..], tail, if !escaped && w[0] == QUOTE then !quoted else quoted, w[0] == BACKSLASH);
    }
  }

  lemma {:induction false} PlainPrefix(p: string, t: string, escaped: bool)
    requires QUOTE !in p && NoWhitespace(p)
    ensures WordEnd(p + t, false, escaped)
         == |p| + WordEnd(t, false, if p == "" then escaped else p[|p| - 1] == BACKSLASH)
  {
    if p == "" {
      assert p + t == t;
    } else {
      assert (p + t)[1..] == p[1..] + t;
      PlainPrefix(p[1..], t, p[0] == BACKSLASH);
    }
  }

  lemma {:induction false} QuotedTail(v: string, t: string)
    requires QUOTE !in v && BACKSLASH !in v
    ensures WordEnd(v + [QUOTE] + t, true, false) == |v| + 1 + WordEnd(t, false, false)
  {
    var s := v + [QUOTE] + t;
    if v == "" {
      assert s[1..] == t;
    } else {
      assert s[1..] == v[1..] + [QUOTE] + t;
      QuotedTail(v[1..], t);
    }
  }

  lemma ShownEnds(v: Token, t: string)
    requires PlainToken(v)
    ensures WordEnd(Shown(v) + t, false, false) == |Shown(v)| + WordEnd(t, false, false)
  {
    match v
    case InQuotes(text) =>
      assert (Quoted(text) + t)[1..] == text + [QUOTE] + t;
      QuotedTail(text, t);
    case Bare(text) => PlainPrefix(text, t, false);
  }

  lemma MainIsSealed(v: Token)
    requires PlainMain(v)
    ensures Sealed(Shown(v))
  {
    ShownEnds(v, "");
    ShownEnds(v, " ");
    assert Shown(v) + "" == Shown(v);
  }

  lemma AssignmentEnds(name: string, v: Token, t: string)
    requires PlainName(name) && PlainToken(v)
    ensures WordEnd(Assignment(name, v) + t, false, false) == |Assignment(name, v)| + WordEnd(t, false, false)
  {
    var p := name + "=";
    assert Assignment(name, v) + t == p + (Shown(v) + t);
    PlainPrefix(p, Shown(v) + t, false);
    ShownEnds(v, t);
  }

  lemma AssignmentIsSealed(name: string, v: Token)
    requires PlainName(name) && PlainToken(v)
    ensures Sealed(Assignment(name, v))
  {
    AssignmentTight(name, v);
    AssignmentEnds(name, v, "");
    AssignmentEnds(name, v, " ");
    assert Assignment(name, v) + "" == Assignment(name, v);
  }

  lemma TightIsTrimmed(s: string)
    requires Tight(s)
    ensures Trim(s) == s
  {
  }

  lemma BlankIsTrimmed(tail: string)
    requires Tight(tail)
    ensures TrimStart(" " + tail) == tail
  {
  }

  lemma FirstWordAt(s: string, n: nat)
    requires n < |s| && Trim(s) == s && WordEnd(s, false, false) == n
    ensures FirstWord(s) == (s[..n], TrimStart(s[n..]))
  {
  }

  lemma SealedBeforeTail(w: string, tail: string)
    requires Sealed(w) && Tight(tail)
    ensures FirstWord(w + " " + tail) == (w, tail)
  {
    var s := w + " " + tail;
    assert Tight(s) && s[..|w|] == w && s[|w|..] == " " + tail;
    BlankIsTrimmed(tail);
    TightIsTrimmed(s);
    SealedBefore(w, tail, false, false);
    FirstWordAt(s, |w|);
  }

  lemma SealedAlone(w: string)
    requires Sealed(w)
    ensures FirstWord(w) == (w, "")
  {
  }

  ghost predicate DistinctNames(args: seq<(string, Token)>) {
    forall i, j :: 0 <= i < j < |args| ==> args[i].0 != args[j].0
  }

  function ArgsMap(args: seq<(string, Token)>): map<string, string> {
    if args == [] then map[] else map[args[0].0 := args[0].1.text] + ArgsMap(args[1..])
  }

  ghost predicate Printable(cmd: CommandMetadata, args: seq<(string, Token)>) {
    && DistinctNames(args)
    && forall i :: 0 <= i < |args| ==>
         && PlainName(args[i].0) && PlainToken(args[i].1)
         && (exists p :: p in cmd.params && p.name == args[i].0)
  }

  lemma ShownIsTrimmed(v: Token)
    requires PlainToken(v)
    ensures TrimQuotes(Shown(v)) == v.text
  {
  }

  lemma AssignmentParsed(cmd: CommandMetadata, unescape: Unescape, name: string, v: Token, so: Parsed)
    requires PlainName(name) && PlainToken(v) && unescape(v.text) == Some(v.text) && name !in so.values
    requires exists p :: p in cmd.params && p.name == name
    ensures WordParsed(cmd, unescape, Assignment(name, v), so) == Ok(so.(values := so.values[name := v.text]))
  {
    NameOfAssignment(name, v);
    ShownIsTrimmed(v);
  }

  ghost predicate PlainArgs(args: seq<(string, Token)>) {
    forall i :: 0 <= i < |args| ==> PlainName(args[i].0) && PlainToken(args[i].1)
  }

  lemma ArgsCons(args: seq<(string, Token)>)
    requires args != []
    ensures ArgWords(args) == [Assignment(args[0].0, args[0].1)] + ArgWords(args[1..])
    ensures PlainArgs(args) ==> PlainArgs(args[1..])
  {
  }

  lemma JoinArgs(args: seq<(string, Token)>)
    ensures |args| == 1 ==> Text.Join(ArgWords(args), " ") == Assignment(args[0].0, args[0].1)
    ensures |args| > 1 ==>
      Text.Join(ArgWords(args), " ") == Assignment(args[0].0, args[0].1) + " " + Text.Join(ArgWords(args[1..]), " ")
  {
    if args != [] {
      assert ArgWords(args)[1..] == ArgWords(args[1..]);
    }
  }

  lemma {:induction false} JoinArgsTight(args: seq<(string, Token)>)
    requires args != [] && PlainArgs(args)
    ensures Tight(Text.Join(ArgWords(args), " "))
  {
    JoinArgs(args);
    AssignmentTight(args[0].0, args[0].1);
    if |args| > 1 {
      JoinArgsTight(args[1..]);
    }
  }

  lemma AssignmentTight(name: string, v: Token)
    requires PlainName(name) && PlainToken(v)
    ensures Tight(Assignment(name, v))
  {
  }

  /** The splitter takes the printed arguments off the line one by one. */
  lemma FirstArgWord(args: seq<(string, Token)>)
    requires args != [] && PlainArgs(args)
    ensures FirstWord(Text.Join(ArgWords(args), " "))
         == (Assignment(args[0].0, args[0].1), Text.Join(ArgWords(args[1..]), " "))
  {
    JoinArgs(args);
    AssignmentIsSealed(args[0].0, args[0].1);
    if |args| == 1 {
      SealedAlone(Assignment(args[0].0, args[0].1));
    } else {
      JoinArgsTight(args[1..]);
      SealedBeforeTail(Assignment(args[0].0, args[0].1), Text.Join(ArgWords(args[1..]), " "));
    }
  }

  lemma NoWords()
    ensures Words("") == []
  {
  }

  lemma {:induction false} WordsOfArgs(args: seq<(string, Token)>)
    requires PlainArgs(args)
    ensures Words(Text.Join(ArgWords(args), " ")) == ArgWords(args)
  {
    if args == [] {
      NoWords();
    } else {
      ArgsCons(args);
      FirstArgWord(args);
      WordsOfArgs(args[1..]);
      WordsStep(Text.Join(ArgWords(args), " "));
    }
  }

  /** Splitting undoes printing. */
  lemma WordsOfPrinted(main: Option<Token>, args: seq<(string, Token)>)
    requires PlainArgs(args) && (main.Some? ==> PlainMain(main.value))
    ensures Words(Printed(main, args)) == PrintedWords(main, args)
  {
    var words, rest := PrintedWords(main, args), ArgWords(args);
    if main.None? {
      assert words == rest;
      WordsOfArgs(args);
    } else {
      var w, tail := Shown(main.value), Text.Join(rest, " ");
      assert words[1..] == rest;
      MainIsSealed(main.value);
      if args == [] {
        SealedAlone(w);
      } else {
        JoinArgsTight(args);
        SealedBeforeTail(w, tail);
      }
      WordsStep(Printed(main, args));
      WordsOfArgs(args);
    }
  }

  /** The printed arguments can be read next, after `so`. */
  ghost predicate Ready(cmd: CommandMetadata, unescape: Unescape, args: seq<(string, Token)>, so: Parsed) {
    && Printable(cmd, args)
    && forall i :: 0 <= i < |args| ==> unescape(args[i].1.text) == Some(args[i].1.text) && args[i].0 !in so.values
  }

  function WithArg(so: Parsed, arg: (string, Token)): Parsed {
    so.(values := so.values[arg.0 := arg.1.text])
  }

  lemma ReadyTail(cmd: CommandMetadata, unescape: Unescape, args: seq<(string, Token)>, so: Parsed)
    requires Ready(cmd, unescape, args, so) && args != []
    ensures Ready(cmd, unescape, args[1..], WithArg(so, args[0]))
  {
  }

  lemma WordsParsedStep(cmd: CommandMetadata, unescape: Unescape, words: seq<string>, so: Parsed, next: Parsed)
    requires words != [] && WordParsed(cmd, unescape, words[0], so) == Ok(next)
    ensures WordsParsed(cmd, unescape, words, so) == WordsParsed(cmd, unescape, words[1..], next)
  {
  }

  lemma FirstArgParsed(cmd: CommandMetadata, unescape: Unescape, args: seq<(string, Token)>, so: Parsed)
    requires Ready(cmd, unescape, args, so) && args != []
    ensures WordsParsed(cmd, unescape, ArgWords(args), so)
         == WordsParsed(cmd, unescape, ArgWords(args[1..]), WithArg(so, args[0]))
  {
    assert ArgWords(args)[1..] == ArgWords(args[1..]);
    AssignmentParsed(cmd, unescape, args[0].0, args[0].1, so);
    WordsParsedStep(cmd, unescape, ArgWords(args), so, WithArg(so, args[0]));
  }

  lemma {:induction false} ArgsParsed(cmd: CommandMetadata, unescape: Unescape, args: seq<(string, Token)>, so: Parsed)
    requires Ready(cmd, unescape, args, so)
    ensures WordsParsed(cmd, unescape, ArgWords(args), so) == Ok(so.(values := so.values + ArgsMap(args)))
    decreases |args|
  {
    if args == [] {
      assert so.values + ArgsMap(args) == so.values;
    } else {
      FirstArgParsed(cmd, unescape, args, so);
      ReadyTail(cmd, unescape, args, so);
      ArgsParsed(cmd, unescape, args[1..], WithArg(so, args[0]));
      MergeAssociates(so.values, args[0].0, args[0].1.text, ArgsMap(args[1..]));
    }
  }

  lemma MergeAssociates(m: map<string, string>, k: string, v: string, n: map<string, string>)
    ensures m + (map[k := v] + n) == m[k := v] + n
  {
  }

  /** What is read of the main parameter before any argument. */
  function MainRead(cmd: CommandMetadata, main: Option<string>): Parsed
    requires cmd.mainParam.Some? <==> main.Some?
  {
    Parsed(if main.Some? then map[cmd.mainParam.value := main.value] else map[], [])
  }

  function TextOf(main: Option<Token>): Option<string> {
    match main
    case Some(t) => Some(t.text)
    case None => None
  }

  lemma LineAfterMain(cmd: CommandMetadata, unescape: Unescape, main: Option<Token>, words: seq<string>)
    requires cmd.mainParam.Some? <==> main.Some?
    requires main.Some? ==> PlainMain(main.value) && unescape(main.value.text) == Some(main.value.text)
    ensures LineParsed(cmd, unescape, (if main.Some? then [Shown(main.value)] else []) + words)
         == WordsParsed(cmd, unescape, words, MainRead(cmd, TextOf(main)))
  {
    if main.Some? {
      var line := [Shown(main.value)] + words;
      assert line[0] == Shown(main.value) && line[1..] == words;
      ShownIsTrimmed(main.value);
    } else {
      assert [] + words == words;
    }
  }

  lemma PrintedParsed(cmd: CommandMetadata, unescape: Unescape, main: Option<Token>, args: seq<(string, Token)>)
    requires cmd.mainParam.Some? <==> main.Some?
    requires main.Some? ==> PlainMain(main.value) && forall i :: 0 <= i < |args| ==> args[i].0 != cmd.mainParam.value
    requires Printable(cmd, args)
    requires forall v: string :: BACKSLASH !in v ==> unescape(v) == Some(v)
    ensures LineParsed(cmd, unescape, PrintedWords(main, args))
         == Ok(Parsed((if main.Some? then map[cmd.mainParam.value := main.value.text] else map[]) + ArgsMap(args), []))
  {
    LineAfterMain(cmd, unescape, main, ArgWords(args));
    ArgsParsed(cmd, unescape, args, MainRead(cmd, TextOf(main)));
  }

  /** Round trip: printing a main parameter and any known, distinct parameters, each in quotes or bare, and parsing the
      line gives back exactly these values, with spaces and equals signs in the quoted ones. */
  lemma ParsePrinted(cmd: CommandMetadata, unescape: Unescape, main: Option<Token>, args: seq<(string, Token)>)
    requires cmd.mainParam.Some? <==> main.Some?
    requires main.Some? ==> PlainMain(main.value) && forall i :: 0 <= i < |args| ==> args[i].0 != cmd.mainParam.value
    requires Printable(cmd, args)
    requires forall v: string :: BACKSLASH !in v ==> unescape(v) == Some(v)
    ensures LineParsed(cmd, unescape, Words(Printed(main, args)))
         == Ok(Parsed((if main.Some? then map[cmd.mainParam.value := main.value.text] else map[]) + ArgsMap(args), []))
  {
    WordsOfPrinted(main, args);
    PrintedParsed(cmd, unescape, main, args);
  }

  // ----- refused lines -----

  lemma {:induction false} LastWordParsed(cmd: CommandMetadata, unescape: Unescape, words: seq<string>, word: string,
                                          so: Parsed)
    ensures WordsParsed(cmd, unescape, words + [word], so) ==
      var r := WordsParsed(cmd, unescape, words, so);
      if r.Err? then r else WordParsed(cmd, unescape, word, r.value)
  {
    if words == [] {
      assert [] + [word] == [word];
      var r := WordParsed(cmd, unescape, word, so);
      assert r.Ok? ==> WordsParsed(cmd, unescape, [word][1..], r.value) == r;
    } else {
      assert (words + [word])[1..] == words[1..] + [word];
      var next := WordParsed(cmd, unescape, words[0], so);
      if next.Ok? {
        LastWordParsed(cmd, unescape, words[1..], word, next.value);
      }
    }
  }

  lemma NameOfAssignment(name: string, v: Token)
    requires '=' !in name
    ensures NameAndValue(Assignment(name, v)) == (name, Some(Shown(v)))
  {
    var w := Assignment(name, v);
    assert w == name + "=" + Shown(v);
    assert Text.SafeBefore(name, "=") by {
      forall i: nat | i < |name| ensures !Text.OccursAt(name + "=", "=", i) {
        assert (name + "=")[i..i + 1] == [name[i]];
      }
    }
    Text.FirstCut(name, "=", Shown(v));
    assert w[..|name|] == name && w[|name| + 1..] == Shown(v);
  }

  lemma BadLastWord(cmd: CommandMetadata, unescape: Unescape, args: seq<(string, Token)>, name: string, v: Token,
                    so: Parsed)
    requires PlainName(name) && Ready(cmd, unescape, args, so)
    ensures var r := WordsParsed(cmd, unescape, ArgWords(args) + [Assignment(name, v)], so);
      && (name in so.values || name in ArgsMap(args) ==> r == Err(Repeated(name)))
      && (name !in so.values && name !in ArgsMap(args) && (forall p :: p in cmd.params ==> p.name != name) ==>
            r == Err(Unknown(name)))
  {
    ArgsParsed(cmd, unescape, args, so);
    LastWordParsed(cmd, unescape, ArgWords(args), Assignment(name, v), so);
    NameOfAssignment(name, v);
  }

  lemma ArgWordsSnoc(args: seq<(string, Token)>, arg: (string, Token))
    ensures ArgWords(args + [arg]) == ArgWords(args) + [Assignment(arg.0, arg.1)]
    ensures PlainArgs(args) && PlainName(arg.0) && PlainToken(arg.1) ==> PlainArgs(args + [arg])
  {
  }

  /** After a main parameter, if the command has one, and any readable arguments, a parameter given twice, the main
      one included, or not known to the command makes the line fail. */
  lemma BadLastArgument(cmd: CommandMetadata, unescape: Unescape, main: Option<Token>, args: seq<(string, Token)>,
                        name: string, v: Token)
    requires cmd.mainParam.Some? <==> main.Some?
    requires main.Some? ==> PlainMain(main.value) && unescape(main.value.text) == Some(main.value.text)
    requires PlainName(name) && PlainToken(v) && Ready(cmd, unescape, args, MainRead(cmd, TextOf(main)))
    ensures var r := LineParsed(cmd, unescape, Words(Printed(main, args + [(name, v)])));
      && (cmd.mainParam == Some(name) || name in ArgsMap(args) ==> r == Err(Repeated(name)))
      && (cmd.mainParam != Some(name) && name !in ArgsMap(args) && (forall p :: p in cmd.params ==> p.name != name) ==>
            r == Err(Unknown(name)))
  {
    ArgWordsSnoc(args, (name, v));
    WordsOfPrinted(main, args + [(name, v)]);
    LineAfterMain(cmd, unescape, main, ArgWords(args + [(name, v)]));
    BadLastWord(cmd, unescape, args, name, v, MainRead(cmd, TextOf(main)));
  }

  // ----- lines of any words -----

  function NameOf(word: string): string { NameAndValue(word).0 }

  /** The word gives the parameter a value. */
  predicate Assigns(word: string, name: string) { NameOf(word) == name && NameAndValue(word).1.Some? }

  /** The word can be read by itself: a known name with a value that can be decoded, or a deferred name alone. */
  predicate Readable(cmd: CommandMetadata, unescape: Unescape, word: string) {
    var (name, value) := NameAndValue(word);
    var param := FindParam(cmd.params, name);
    param.Some? && if value.Some? then unescape(TrimQuotes(value.value)).Some? else param.value.isDeferred
  }

  lemma WordReadExactly(cmd: CommandMetadata, unescape: Unescape, word: string, so: Parsed)
    ensures var r := WordParsed(cmd, unescape, word, so);
      && (r.Ok? <==> Readable(cmd, unescape, word) && NameOf(word) !in so.values)
      && (r == Err(Repeated(NameOf(word))) <==> NameOf(word) in so.values)
      && (r.Ok? ==> forall name :: name in r.value.values <==> name in so.values || Assigns(word, name))
  {
  }

  /** What has been given a value once a line of words is read. */
  lemma {:induction false} ValuesRead(cmd: CommandMetadata, unescape: Unescape, words: seq<string>, so: Parsed,
                                      name: string)
    requires WordsParsed(cmd, unescape, words, so).Ok?
    ensures name in WordsParsed(cmd, unescape, words, so).value.values
       <==> name in so.values || exists i :: 0 <= i < |words| && Assigns(words[i], name)
    decreases |words|
  {
    if words != [] {
      var rest, next := words[1..], WordParsed(cmd, unescape, words[0], so);
      WordReadExactly(cmd, unescape, words[0], so);
      ValuesRead(cmd, unescape, rest, next.value, name);
      if i :| 0 <= i < |rest| && Assigns(rest[i], name) {
        assert Assigns(words[i + 1], name);
      }
      if i :| 0 <= i < |words| && Assigns(words[i], name) {
        assert i == 0 || Assigns(rest[i - 1], name);
      }
    }
  }

  /** A name is refused as repeated exactly when it was read before, as the main parameter say, or an earlier word
      gave it a value.  A deferred name that stood alone does not count. */
  lemma RepeatRefusedExactly(cmd: CommandMetadata, unescape: Unescape, words: seq<string>, word: string, so: Parsed)
    requires WordsParsed(cmd, unescape, words, so).Ok?
    ensures WordsParsed(cmd, unescape, words + [word], so) == Err(Repeated(NameOf(word)))
       <==> NameOf(word) in so.values || exists i :: 0 <= i < |words| && Assigns(words[i], NameOf(word))
  {
    LastWordParsed(cmd, unescape, words, word, so);
    ValuesRead(cmd, unescape, words, so, NameOf(word));
    WordReadExactly(cmd, unescape, word, WordsParsed(cmd, unescape, words, so).value);
  }

  /** The word at `i` can be read, and its name has no value yet. */
  ghost predicate AcceptableAt(cmd: CommandMetadata, unescape: Unescape, words: seq<string>, so: Parsed, i: nat)
    requires i < |words|
  {
    && Readable(cmd, unescape, words[i]) && NameOf(words[i]) !in so.values
    && forall j :: 0 <= j < i ==> !Assigns(words[j], NameOf(words[i]))
  }

  ghost predicate AllAcceptable(cmd: CommandMetadata, unescape: Unescape, words: seq<string>, so: Parsed) {
    forall i :: 0 <= i < |words| ==> AcceptableAt(cmd, unescape, words, so, i)
  }

  lemma AcceptableBefore(cmd: CommandMetadata, unescape: Unescape, words: seq<string>, word: string, so: Parsed, i: nat)
    requires i < |words|
    ensures AcceptableAt(cmd, unescape, words + [word], so, i) <==> AcceptableAt(cmd, unescape, words, so, i)
  {
    assert forall j :: 0 <= j <= i ==> (words + [word])[j] == words[j];
  }

  lemma AcceptableLast(cmd: CommandMetadata, unescape: Unescape, words: seq<string>, word: string, so: Parsed)
    ensures AcceptableAt(cmd, unescape, words + [word], so, |words|)
       <==> && Readable(cmd, unescape, word) && NameOf(word) !in so.values
            && !exists j :: 0 <= j < |words| && Assigns(words[j], NameOf(word))
  {
    assert forall j :: 0 <= j < |words| ==> (words + [word])[j] == words[j];
  }

  lemma AllAcceptableSnoc(cmd: CommandMetadata, unescape: Unescape, words: seq<string>, word: string, so: Parsed)
    ensures AllAcceptable(cmd, unescape, words + [word], so)
       <==> AllAcceptable(cmd, unescape, words, so) && AcceptableAt(cmd, unescape, words + [word], so, |words|)
  {
    forall i | 0 <= i < |words|
      ensures AcceptableAt(cmd, unescape, words + [word], so, i) <==> AcceptableAt(cmd, unescape, words, so, i)
    {
      AcceptableBefore(cmd, unescape, words, word, so, i);
    }
  }

  /** One more word is accepted exactly when it is acceptable after the others. */
  lemma LastWordAccepted(cmd: CommandMetadata, unescape: Unescape, words: seq<string>, word: string, so: Parsed)
    requires WordsParsed(cmd, unescape, words, so).Ok?
    ensures WordsParsed(cmd, unescape, words + [word], so).Ok?
       <==> AcceptableAt(cmd, unescape, words + [word], so, |words|)
  {
    AcceptableLast(cmd, unescape, words, word, so);
    LastWordParsed(cmd, unescape, words, word, so);
    ValuesRead(cmd, unescape, words, so, NameOf(word));
    WordReadExactly(cmd, unescape, word, WordsParsed(cmd, unescape, words, so).value);
  }

  /** Exactly which words are accepted after others: every one can be read by itself, and none names a parameter that
      has been given a value before. */
  lemma {:induction false} WordsAcceptedExactly(cmd: CommandMetadata, unescape: Unescape, words: seq<string>,
                                                so: Parsed)
    ensures WordsParsed(cmd, unescape, words, so).Ok? <==> AllAcceptable(cmd, unescape, words, so)
  {
    if words != [] {
      var before, word := words[..|words| - 1], words[|words| - 1];
      assert words == before + [word];
      WordsAcceptedExactly(cmd, unescape, before, so);
      AllAcceptableSnoc(cmd, unescape, before, word, so);
      LastWordParsed(cmd, unescape, before, word, so);
      if WordsParsed(cmd, unescape, before, so).Ok? {
        LastWordAccepted(cmd, unescape, before, word, so);
      }
    }
  }

  /** The main parameter, if the command has one, is there and can be decoded. */
  predicate MainReadable(cmd: CommandMetadata, unescape: Unescape, words: seq<string>) {
    cmd.mainParam.Some? ==> words != [] && unescape(TrimQuotes(words[0])).Some?
  }

  /** The word at `i` can be read, and names neither the main parameter nor one that an earlier word gave a value. */
  ghost predicate InPlace(cmd: CommandMetadata, unescape: Unescape, words: seq<string>, i: nat)
    requires i < |words|
  {
    && Readable(cmd, unescape, words[i]) && cmd.mainParam != Some(NameOf(words[i]))
    && forall j :: 0 <= j < i ==> !Assigns(words[j], NameOf(words[i]))
  }

  function MainOf(cmd: CommandMetadata, unescape: Unescape, words: seq<string>): Option<string>
    requires MainReadable(cmd, unescape, words)
  {
    if cmd.mainParam.Some? then unescape(TrimQuotes(words[0])) else None
  }

  function AfterMain(cmd: CommandMetadata, words: seq<string>): seq<string>
    requires cmd.mainParam.Some? ==> words != []
  {
    if cmd.mainParam.Some? then words[1..] else words
  }

  ghost predicate AllInPlace(cmd: CommandMetadata, unescape: Unescape, words: seq<string>) {
    forall i :: 0 <= i < |words| ==> InPlace(cmd, unescape, words, i)
  }

  ghost predicate LineAcceptable(cmd: CommandMetadata, unescape: Unescape, words: seq<string>) {
    MainReadable(cmd, unescape, words) && AllInPlace(cmd, unescape, AfterMain(cmd, words))
  }

  lemma InPlaceExactly(cmd: CommandMetadata, unescape: Unescape, words: seq<string>, main: Option<string>)
    requires cmd.mainParam.Some? <==> main.Some?
    ensures AllAcceptable(cmd, unescape, words, MainRead(cmd, main)) <==> AllInPlace(cmd, unescape, words)
  {
    forall i | 0 <= i < |words|
      ensures AcceptableAt(cmd, unescape, words, MainRead(cmd, main), i) <==> InPlace(cmd, unescape, words, i)
    {
    }
  }

  lemma MainThenWords(cmd: CommandMetadata, unescape: Unescape, words: seq<string>)
    ensures LineParsed(cmd, unescape, words).Ok? ==> MainReadable(cmd, unescape, words)
    ensures MainReadable(cmd, unescape, words) ==>
      LineParsed(cmd, unescape, words)
      == WordsParsed(cmd, unescape, AfterMain(cmd, words), MainRead(cmd, MainOf(cmd, unescape, words)))
  {
  }

  /** Exactly which lists of words are accepted as a line. */
  lemma WordListAcceptedExactly(cmd: CommandMetadata, unescape: Unescape, words: seq<string>)
    ensures LineParsed(cmd, unescape, words).Ok? <==> LineAcceptable(cmd, unescape, words)
  {
    MainThenWords(cmd, unescape, words);
    if MainReadable(cmd, unescape, words) {
      var main, rest := MainOf(cmd, unescape, words), AfterMain(cmd, words);
      WordsAcceptedExactly(cmd, unescape, rest, MainRead(cmd, main));
      InPlaceExactly(cmd, unescape, rest, main);
    }
  }

  /** Exactly which lines are accepted: the main parameter is there and can be decoded, every further word can be read
      by itself, and none names a parameter that has a value already. */
  lemma LineAcceptedExactly(cmd: CommandMetadata, unescape: Unescape, line: string)
    ensures LineParsed(cmd, unescape, Words(line)).Ok? <==> LineAcceptable(cmd, unescape, Words(line))
  {
    WordListAcceptedExactly(cmd, unescape, Words(line));
  }

  lemma NameAlone(name: string)
    requires '=' !in name
    ensures NameAndValue(name) == (name, None)
  {
    forall i: nat | i + 1 <= |name| ensures !Text.OccursAt(name, "=", i) {
      assert name[i..i + 1] == [name[i]];
    }
  }

  lemma DeferredAlone(cmd: CommandMetadata, unescape: Unescape, name: string, so: Parsed)
    requires '=' !in name && name !in so.values
    requires FindParam(cmd.params, name).Some? && FindParam(cmd.params, name).value.isDeferred
    ensures WordParsed(cmd, unescape, name, so) == Ok(so.(deferred := so.deferred + [name]))
  {
    NameAlone(name);
  }

  /** A deferred parameter may be named twice, and is then asked for twice; after its name alone it may be given a
      value, and is asked for nevertheless; the other way round it is refused. */
  lemma DeferredMayRepeat(cmd: CommandMetadata, unescape: Unescape, name: string, v: Token)
    requires PlainName(name) && PlainToken(v) && unescape(v.text) == Some(v.text)
    requires FindParam(cmd.params, name).Some? && FindParam(cmd.params, name).value.isDeferred
    ensures var so := Parsed(map[], []);
      && WordsParsed(cmd, unescape, [name, name], so) == Ok(Parsed(map[], [name, name]))
      && WordsParsed(cmd, unescape, [name, Assignment(name, v)], so) == Ok(Parsed(map[name := v.text], [name]))
      && WordsParsed(cmd, unescape, [Assignment(name, v), name], so) == Err(Repeated(name))
  {
    var so, given := Parsed(map[], []), Assignment(name, v);
    assert [] + [name] == [name] && [name] + [name] == [name, name];
    NameAlone(name);
    DeferredAlone(cmd, unescape, name, so);
    DeferredAlone(cmd, unescape, name, Parsed(map[], [name]));
    AssignmentParsed(cmd, unescape, name, v, Parsed(map[], [name]));
    AssignmentParsed(cmd, unescape, name, v, so);
    TwoWordsParsed(cmd, unescape, name, name, so);
    TwoWordsParsed(cmd, unescape, name, given, so);
    TwoWordsParsed(cmd, unescape, given, name, so);
  }

  lemma TwoWordsParsed(cmd: CommandMetadata, unescape: Unescape, first: string, second: string, so: Parsed)
    ensures WordsParsed(cmd, unescape, [first, second], so) ==
      var r := WordParsed(cmd, unescape, first, so);
      if r.Err? then r else WordParsed(cmd, unescape, second, r.value)
  {
    assert [first] + [second] == [first, second];
    LastWordParsed(cmd, unescape, [], first, so);
    assert [] + [first] == [first];
    LastWordParsed(cmd, unescape, [first], second, so);
  }
}
