/** What the CLI reads from any line, written out on the characters of the line and its words. */
module CliLines {
  import opened Common
  import opened CliParser
  import Text

  /** The characters that separate words: those with Unicode's White_Space property. */
  lemma WhitespaceIs(c: char)
    ensures IsWhitespace(c) <==>
      c as int in {9, 10, 11, 12, 13, 32, 133, 160, 5760, 8192, 8193, 8194, 8195, 8196, 8197, 8198, 8199, 8200, 8201,
                   8202, 8232, 8233, 8239, 8287, 12288}
  {
  }

  // ----- where a word ends -----

  /** The character at `i` is a quote that no backslash precedes. */
  predicate IsOpenQuote(s: string, i: nat)
    requires i < |s|
  {
    s[i] == '\"' && (i == 0 || s[i - 1] != '\\')
  }

  function QuotesBefore(s: string, n: nat): nat
    requires n <= |s|
  {
    if n == 0 then 0 else QuotesBefore(s, n - 1) + if IsOpenQuote(s, n - 1) then 1 else 0
  }

  /** A word may end at `n`: there is whitespace, and an even number of quotes before it. */
  predicate IsBreak(s: string, n: nat)
    requires n < |s|
  {
    IsWhitespace(s[n]) && QuotesBefore(s, n) % 2 == 0
  }

  lemma QuotesStep(s: string, pos: nat, quoted: bool, escaped: bool)
    requires pos < |s| && (quoted <==> QuotesBefore(s, pos) % 2 == 1) && (escaped <==> pos > 0 && s[pos - 1] == '\\')
    ensures (if !escaped && s[pos] == '\"' then !quoted else quoted) <==> QuotesBefore(s, pos + 1) % 2 == 1
    ensures IsBreak(s, pos) <==> IsWhitespace(s[pos]) && !quoted
  {
  }

  lemma {:induction false} WordEndFrom(s: string, pos: nat, quoted: bool, escaped: bool)
    requires pos <= |s| && (quoted <==> QuotesBefore(s, pos) % 2 == 1) && (escaped <==> pos > 0 && s[pos - 1] == '\\')
    ensures var n := pos + WordEnd(s[pos..], quoted, escaped);
      n <= |s| && (forall k :: pos <= k < n ==> !IsBreak(s, k)) && (n < |s| ==> IsBreak(s, n))
    decreases |s| - pos
  {
    if pos < |s| {
      WordEndStep(s, pos, quoted, escaped);
      QuotesStep(s, pos, quoted, escaped);
      if !(IsWhitespace(s[pos]) && !quoted) {
        WordEndFrom(s, pos + 1, if !escaped && s[pos] == '\"' then !quoted else quoted, s[pos] == '\\');
      }
    }
  }

  /** The first word of a trimmed line ends at the first break, or at the end when there is none. */
  lemma WordEndExactly(s: string)
    ensures var n := WordEnd(s, false, false);
      n <= |s| && (forall k :: 0 <= k < n ==> !IsBreak(s, k)) && (n < |s| ==> IsBreak(s, n))
  {
    assert s[0..] == s;
    WordEndFrom(s, 0, false, false);
  }

  predicate Blank(s: string) { forall i :: 0 <= i < |s| ==> IsWhitespace(s[i]) }

  lemma CutOff(s: string, t: string) returns (a: string)
    requires |t| <= |s| && t == s[|s| - |t|..] && forall i :: 0 <= i < |s| - |t| ==> IsWhitespace(s[i])
    ensures Blank(a) && s == a + t
  {
    a := s[..|s| - |t|];
  }

  lemma StartCut(s: string) returns (a: string)
    ensures Blank(a) && s == a + TrimStart(s)
  {
    a := CutOff(s, TrimStart(s));
  }

  lemma EndCut(s: string) returns (c: string)
    ensures Blank(c) && s == TrimEnd(s) + c
  {
    c := s[|TrimEnd(s)|..];
  }

  /** The line is the word and the tail, with nothing but whitespace around and between them. */
  ghost predicate MadeOf(line: string, word: string, tail: string, a: string, b: string, c: string) {
    Blank(a) && Blank(b) && Blank(c) && line == a + (word + (b + tail)) + c
  }

  lemma CutWord(s: string, n: nat, b: string, tail: string)
    requires n <= |s| && s[n..] == b + tail
    ensures s == s[..n] + (b + tail)
  {
  }

  /** The word of a trimmed line, and the tail after it. */
  lemma WordCut(s: string, word: string, tail: string) returns (b: string)
    requires var n := WordEnd(s, false, false);
      (word, tail) == if n == |s| then (s, "") else (s[..n], TrimStart(s[n..]))
    ensures Blank(b) && s == word + (b + tail)
  {
    var n := WordEnd(s, false, false);
    if n == |s| {
      b := "";
    } else {
      var rest := s[n..];
      b := StartCut(rest);
      CutWord(s, n, b, tail);
    }
  }

  /** So every line is made of its first word and its tail. */
  lemma FirstWordCuts(line: string)
    ensures exists a, b, c :: MadeOf(line, FirstWord(line).0, FirstWord(line).1, a, b, c)
  {
    var a := StartCut(line);
    var c := EndCut(TrimStart(line));
    var s := Trim(line);
    var b := WordCut(s, FirstWord(line).0, FirstWord(line).1);
    Regroup(line, a, s, c);
    assert MadeOf(line, FirstWord(line).0, FirstWord(line).1, a, b, c);
  }

  lemma Regroup(line: string, a: string, s: string, c: string)
    requires line == a + (s + c)
    ensures line == a + s + c
  {
  }

  // ----- what a value is -----

  /** The value a text stands for, before decoding: what is between its quotes, or the text itself when it is not in
      quotes. */
  ghost predicate StandsFor(text: string, v: string) {
    || text == "\"" + v + "\""
    || (v == text && !exists w: string :: text == "\"" + w + "\"")
  }

  lemma QuotesTrimmedExactly(text: string, v: string)
    ensures TrimQuotes(text) == v <==> StandsFor(text, v)
  {
    if |text| > 1 && text[0] == '\"' && text[|text| - 1] == '\"' {
      assert text == "\"" + text[1..|text| - 1] + "\"";
      if text == "\"" + v + "\"" {
        assert v == text[1..|text| - 1];
      }
    }
  }

  /** The word is a name and a text. */
  predicate Splits(word: string, name: string, text: string) { '=' !in name && word == name + "=" + text }

  lemma SplitsExactly(word: string, name: string, text: string)
    ensures NameAndValue(word) == (name, Some(text)) <==> Splits(word, name, text)
  {
    if Splits(word, name, text) {
      NameOfAssignment(name, Bare(text));
    }
    if NameAndValue(word) == (name, Some(text)) {
      var at := Text.FindFrom(word, "=", 0);
      assert word[at.value..at.value + 1] == "=";
      forall i | 0 <= i < |name| ensures name[i] != '=' {
        assert !Text.OccursAt(word, "=", i);
        assert word[i..i + 1] == [word[i]];
      }
      assert word == word[..at.value] + word[at.value..at.value + 1] + word[at.value + 1..];
    }
  }

  lemma WordKeepsValues(cmd: CommandMetadata, unescape: Unescape, word: string, so: Parsed, name: string)
    requires WordParsed(cmd, unescape, word, so).Ok? && name in so.values
    ensures var r := WordParsed(cmd, unescape, word, so).value;
      name in r.values && r.values[name] == so.values[name]
  {
  }

  lemma {:induction false} WordsKeepValues(cmd: CommandMetadata, unescape: Unescape, words: seq<string>, so: Parsed,
                                           name: string)
    requires WordsParsed(cmd, unescape, words, so).Ok? && name in so.values
    ensures var r := WordsParsed(cmd, unescape, words, so).value;
      name in r.values && r.values[name] == so.values[name]
    decreases |words|
  {
    if words != [] {
      WordKeepsValues(cmd, unescape, words[0], so, name);
      WordsKeepValues(cmd, unescape, words[1..], WordParsed(cmd, unescape, words[0], so).value, name);
    }
  }

  lemma WordGivesValue(cmd: CommandMetadata, unescape: Unescape, word: string, so: Parsed,
                       name: string, text: string, v: string)
    requires WordParsed(cmd, unescape, word, so).Ok? && Splits(word, name, text) && StandsFor(text, v)
    ensures var r := WordParsed(cmd, unescape, word, so).value;
      name in r.values && unescape(v) == Some(r.values[name])
  {
    SplitsExactly(word, name, text);
    QuotesTrimmedExactly(text, v);
  }

  /** Every assignment of an accepted line gives its parameter the value that it stands for, decoded. */
  lemma {:induction false} AssignmentsGiveValues(cmd: CommandMetadata, unescape: Unescape, words: seq<string>,
                                                 so: Parsed, i: nat, name: string, text: string, v: string)
    requires WordsParsed(cmd, unescape, words, so).Ok? && i < |words|
    requires Splits(words[i], name, text) && StandsFor(text, v)
    ensures var r := WordsParsed(cmd, unescape, words, so).value;
      name in r.values && unescape(v) == Some(r.values[name])
    decreases |words|
  {
    var next := WordParsed(cmd, unescape, words[0], so);
    if i == 0 {
      WordGivesValue(cmd, unescape, words[0], so, name, text, v);
      WordsKeepValues(cmd, unescape, words[1..], next.value, name);
    } else {
      AssignmentsGiveValues(cmd, unescape, words[1..], next.value, i - 1, name, text, v);
    }
  }

  /** And so does the main parameter of a line. */
  lemma MainGivesValue(cmd: CommandMetadata, unescape: Unescape, words: seq<string>, v: string)
    requires cmd.mainParam.Some? && LineParsed(cmd, unescape, words).Ok? && words != [] && StandsFor(words[0], v)
    ensures var r := LineParsed(cmd, unescape, words).value;
      cmd.mainParam.value in r.values && unescape(v) == Some(r.values[cmd.mainParam.value])
  {
    MainThenWords(cmd, unescape, words);
    QuotesTrimmedExactly(words[0], v);
    WordsKeepValues(cmd, unescape, AfterMain(cmd, words), MainRead(cmd, MainOf(cmd, unescape, words)),
                    cmd.mainParam.value);
  }

  /** What an accepted line reads, word by word: the main parameter and every assignment have the value that they stand
      for, decoded, and nothing else has one. */
  lemma LineReadsExactly(cmd: CommandMetadata, unescape: Unescape, words: seq<string>, name: string)
    requires LineParsed(cmd, unescape, words).Ok?
    ensures cmd.mainParam.Some? ==> words != []
    ensures var r, rest := LineParsed(cmd, unescape, words).value, AfterMain(cmd, words);
      && (name in r.values <==>
            cmd.mainParam == Some(name) || exists i, text :: 0 <= i < |rest| && Splits(rest[i], name, text))
      && (forall v :: cmd.mainParam == Some(name) && StandsFor(words[0], v) ==> unescape(v) == Some(r.values[name]))
      && (forall i, text, v :: 0 <= i < |rest| && Splits(rest[i], name, text) && StandsFor(text, v) ==>
            unescape(v) == Some(r.values[name]))
  {
    MainThenWords(cmd, unescape, words);
    var r, rest, so := LineParsed(cmd, unescape, words).value, AfterMain(cmd, words),
                       MainRead(cmd, MainOf(cmd, unescape, words));
    ValuesRead(cmd, unescape, rest, so, name);
    NamedExactly(rest, name);
    forall v | cmd.mainParam == Some(name) && StandsFor(words[0], v) ensures unescape(v) == Some(r.values[name]) {
      MainGivesValue(cmd, unescape, words, v);
    }
    forall i, text, v | 0 <= i < |rest| && Splits(rest[i], name, text) && StandsFor(text, v)
      ensures name in r.values && unescape(v) == Some(r.values[name])
    {
      AssignmentsGiveValues(cmd, unescape, rest, so, i, name, text, v);
    }
  }

  lemma NamedExactly(words: seq<string>, name: string)
    ensures (exists i :: 0 <= i < |words| && Assigns(words[i], name))
       <==> exists i, text :: 0 <= i < |words| && Splits(words[i], name, text)
  {
    if i :| 0 <= i < |words| && Assigns(words[i], name) {
      SplitsExactly(words[i], name, NameAndValue(words[i]).1.value);
      assert Splits(words[i], name, NameAndValue(words[i]).1.value);
    }
    if i, text :| 0 <= i < |words| && Splits(words[i], name, text) {
      SplitsExactly(words[i], name, text);
      assert Assigns(words[i], name);
    }
  }

  /** The words that are a name alone. */
  function NamesAlone(words: seq<string>): seq<string> {
    if words == [] then []
    else (if '=' in words[0] then [] else [words[0]]) + NamesAlone(words[1..])
  }

  lemma WordDefers(cmd: CommandMetadata, unescape: Unescape, word: string, so: Parsed)
    requires WordParsed(cmd, unescape, word, so).Ok?
    ensures WordParsed(cmd, unescape, word, so).value.deferred == so.deferred + if '=' in word then [] else [word]
  {
    if '=' !in word {
      NameAlone(word);
    } else if NameAndValue(word).1.None? {
      NoEquals(word);
    }
  }

  lemma Regrouped(a: seq<string>, b: seq<string>, c: seq<string>)
    ensures a + b + c == a + (b + c)
  {
  }

  /** The parameters whose value is asked for afterwards are the names that stand alone, in their order. */
  lemma {:induction false} DeferredInOrder(cmd: CommandMetadata, unescape: Unescape, words: seq<string>, so: Parsed)
    requires WordsParsed(cmd, unescape, words, so).Ok?
    ensures WordsParsed(cmd, unescape, words, so).value.deferred == so.deferred + NamesAlone(words)
    decreases |words|
  {
    if words != [] {
      var rest, next := words[1..], WordParsed(cmd, unescape, words[0], so);
      WordDefers(cmd, unescape, words[0], so);
      DeferredInOrder(cmd, unescape, rest, next.value);
      Regrouped(so.deferred, if '=' in words[0] then [] else [words[0]], NamesAlone(rest));
    }
  }

  // ----- which error -----

  /** The error that the next word gives: a repeated name first, then an unknown one, then a value that is missing or
      cannot be decoded. */
  lemma ErrorExactly(cmd: CommandMetadata, unescape: Unescape, word: string, so: Parsed)
    ensures var r, name, bare := WordParsed(cmd, unescape, word, so), NameOf(word), '=' !in word;
      && (r == Err(Repeated(name)) <==> name in so.values)
      && (r == Err(Unknown(name)) <==> name !in so.values && forall p :: p in cmd.params ==> p.name != name)
      && (r == Err(NoValue(name)) ==> bare && name == word)
      && (r == Err(BadEscape(name)) ==>
            exists text, v :: Splits(word, name, text) && StandsFor(text, v) && unescape(v).None?)
      && (r.Err? ==> r.error in {Repeated(name), Unknown(name), NoValue(name), BadEscape(name)})
  {
    if '=' !in word {
      NameAlone(word);
    }
    var (name, value) := NameAndValue(word);
    if value.Some? {
      SplitsExactly(word, name, value.value);
      QuotesTrimmedExactly(value.value, TrimQuotes(value.value));
    } else {
      NoEquals(word);
    }
  }

  lemma NoEquals(word: string)
    requires NameAndValue(word).1.None?
    ensures '=' !in word
  {
    forall i | 0 <= i < |word| ensures word[i] != '=' {
      assert !Text.OccursAt(word, "=", i);
      assert word[i..i + 1] == [word[i]];
    }
  }
}
