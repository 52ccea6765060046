/** Command lines printed for a POSIX shell, and the shell's own reading of them. */
module ShellQuote {
  import opened Basics
  import opened Text

  // ----- the shell (POSIX.1-2017, Shell Command Language, sections 2.2 and 2.3) -----

  datatype Token = Word(text: string) | AndIf

  datatype Mode = Unquoted | Single | Double

  predicate IsBlank(c: char) { c == ' ' || c == '\t' }

  /** Outside quotes: starts an operator other than `&&`, an expansion or a pattern, or ends the line. */
  predicate IsSpecial(c: char) {
    c in {'|', '&', ';', '<', '>', '(', ')', '$', '`', '*', '?', '[', '\n'}
  }

  /** Special at the start of a word: a comment, a home directory. */
  predicate IsSpecialFirst(c: char) { c == '#' || c == '~' }

  function Finished(word: Option<string>): seq<Token> {
    if word.Some? then [Word(word.value)] else []
  }

  function With(word: Option<string>, c: char): Option<string> { Some(word.GetOr("") + [c]) }

  function Then(tokens: seq<Token>, r: Option<seq<Token>>): Option<seq<Token>> {
    if r.Some? then Some(tokens + r.value) else None
  }

  /** The tokens of a line with their quotes removed, `word` being read; none for a line that asks for more
      than words and `&&`, or that ends inside quotes. */
  function Lex(s: string, mode: Mode, word: Option<string>): Option<seq<Token>>
    decreases |s|
  {
    if s == "" then if mode == Unquoted then Some(Finished(word)) else None
    else
      match mode
      case Single =>
        if s[0] == '\'' then Lex(s[1..], Unquoted, Some(word.GetOr("")))
        else Lex(s[1..], Single, With(word, s[0]))
      case Double =>
        if s[0] == '"' then Lex(s[1..], Unquoted, Some(word.GetOr("")))
        else if s[0] == '$' || s[0] == '`' then None
        else if s[0] == '\\' && |s| > 1 && s[1] == '\n' then Lex(s[2..], Double, word)
        else if s[0] == '\\' && |s| > 1 && s[1] in {'$', '`', '"', '\\'} then Lex(s[2..], Double, With(word, s[1]))
        else Lex(s[1..], Double, With(word, s[0]))
      case Unquoted =>
        if s[0] == '\'' then Lex(s[1..], Single, Some(word.GetOr("")))
        else if s[0] == '"' then Lex(s[1..], Double, Some(word.GetOr("")))
        else if s[0] == '\\' then
          if |s| == 1 then None
          else if s[1] == '\n' then Lex(s[2..], Unquoted, word)
          else Lex(s[2..], Unquoted, With(word, s[1]))
        else if IsBlank(s[0]) then Then(Finished(word), Lex(s[1..], Unquoted, None))
        else if s[0] == '&' && |s| > 1 && s[1] == '&' then
          Then(Finished(word) + [AndIf], Lex(s[2..], Unquoted, None))
        else if IsSpecial(s[0]) || (word.None? && IsSpecialFirst(s[0])) then None
        else Lex(s[1..], Unquoted, With(word, s[0]))
  }

  /** How a shell reads a line. */
  function Tokens(line: string): Option<seq<Token>> { Lex(line, Unquoted, None) }

  // ----- quoting -----

  predicate IsSafe(c: char) {
    || 'a' <= c <= 'z' || 'A' <= c <= 'Z' || '0' <= c <= '9'
    || c in {'_', '-', '.', '/', ':', '@', '%', '+', '=', ','}
  }

  predicate AllSafe(s: string) { forall i | 0 <= i < |s| :: IsSafe(s[i]) }

  const SPLICE: string := "'\"'\"'"

  /** A text with every single quote spliced in from double quotes. */
  function Spliced(s: string): string {
    if s == "" then "" else (if s[0] == '\'' then SPLICE else [s[0]]) + Spliced(s[1..])
  }

  function QuoteForPosix(value: string): string {
    if value == "" then "''"
    else if value[0] != '=' && AllSafe(value) then value
    else "'" + Spliced(value) + "'"
  }

  // ----- a shell undoes it -----

  lemma LexSafe(c: char, rest: string, word: Option<string>)
    requires IsSafe(c)
    ensures Lex([c] + rest, Unquoted, word) == Lex(rest, Unquoted, With(word, c))
  {
    assert ([c] + rest)[1..] == rest;
  }

  lemma LexQuote(mode: Mode, rest: string, word: Option<string>)
    requires mode != Double
    ensures Lex("'" + rest, mode, word)
            == Lex(rest, if mode == Single then Unquoted else Single, Some(word.GetOr("")))
  {
    assert ("'" + rest)[1..] == rest;
  }

  lemma LexLiteral(c: char, rest: string, word: Option<string>)
    requires c != '\''
    ensures Lex([c] + rest, Single, word) == Lex(rest, Single, With(word, c))
  {
    assert ([c] + rest)[1..] == rest;
  }

  lemma LexQuotedQuote(rest: string, word: Option<string>)
    ensures Lex("\"'\"" + rest, Unquoted, word) == Lex(rest, Unquoted, With(word, '\''))
  {
    var s := "\"'\"" + rest;
    var inner := "'\"" + rest;
    var last := "\"" + rest;
    assert s[0] == '"' && s[1..] == inner;
    assert inner[0] == '\'' && inner[1..] == last;
    assert last[0] == '"' && last[1..] == rest;
    var w := Some(word.GetOr(""));
    assert Lex(s, Unquoted, word) == Lex(inner, Double, w);
    assert Lex(inner, Double, w) == Lex(last, Double, With(w, '\''));
  }

  /** The splice reads as one single quote, and goes on inside single quotes. */
  lemma LexSplice(rest: string, word: string)
    ensures Lex(SPLICE + rest, Single, Some(word)) == Lex(rest, Single, Some(word + "'"))
  {
    hide Lex;
    assert SPLICE + rest == "'" + ("\"'\"" + ("'" + rest));
    LexQuote(Single, "\"'\"" + ("'" + rest), Some(word));
    LexQuotedQuote("'" + rest, Some(word));
    LexQuote(Unquoted, rest, Some(word + "'"));
  }

  lemma {:induction false} LexSpliced(v: string, rest: string, word: string)
    ensures Lex(Spliced(v) + ("'" + rest), Single, Some(word)) == Lex(rest, Unquoted, Some(word + v))
  {
    hide Lex;
    if v == "" {
      assert Spliced(v) + ("'" + rest) == "'" + rest && word + v == word;
      LexQuote(Single, rest, Some(word));
    } else {
      var c, more := v[0], v[1..];
      LexSpliced(more, rest, word + [c]);
      assert (word + [c]) + more == word + v;
      var tail := Spliced(more) + ("'" + rest);
      if c == '\'' {
        assert Spliced(v) + ("'" + rest) == SPLICE + tail;
        LexSplice(tail, word);
      } else {
        assert Spliced(v) + ("'" + rest) == [c] + tail;
        LexLiteral(c, tail, Some(word));
      }
    }
  }

  lemma {:induction false} LexAllSafe(v: string, rest: string, word: Option<string>)
    requires AllSafe(v) && v != ""
    ensures Lex(v + rest, Unquoted, word) == Lex(rest, Unquoted, Some(word.GetOr("") + v))
  {
    hide Lex;
    var c, more := v[0], v[1..];
    assert v + rest == [c] + (more + rest);
    LexSafe(c, more + rest, word);
    if more == "" {
      assert more + rest == rest && v == [c];
    } else {
      LexAllSafe(more, rest, With(word, c));
      assert (word.GetOr("") + [c]) + more == word.GetOr("") + v;
    }
  }

  /** A quoted value, wherever it stands in a line, adds exactly itself to the word being read. */
  lemma QuotedReads(value: string, rest: string, word: Option<string>)
    ensures Lex(QuoteForPosix(value) + rest, Unquoted, word) == Lex(rest, Unquoted, Some(word.GetOr("") + value))
  {
    hide Lex;
    if value == "" {
      assert QuoteForPosix(value) + rest == "'" + ("'" + rest);
      LexQuote(Unquoted, "'" + rest, word);
      LexQuote(Single, rest, Some(word.GetOr("")));
      assert word.GetOr("") + value == word.GetOr("");
    } else if value[0] != '=' && AllSafe(value) {
      LexAllSafe(value, rest, word);
    } else {
      assert QuoteForPosix(value) + rest == "'" + (Spliced(value) + ("'" + rest));
      LexQuote(Unquoted, Spliced(value) + ("'" + rest), word);
      LexSpliced(value, rest, word.GetOr(""));
    }
  }

  /** A shell reads a quoted value as one word, which is the value. */
  lemma QuoteInverts(value: string)
    ensures Tokens(QuoteForPosix(value)) == Some([Word(value)])
  {
    QuotedReads(value, "", None);
    assert QuoteForPosix(value) + "" == QuoteForPosix(value);
    assert "" + value == value;
  }

  /** A value stays as it is exactly if it is letters, digits and `_-./:@%+=,` alone, and does not start with
      `=`; any other is put between quotes. */
  lemma BareStays(value: string)
    ensures QuoteForPosix(value) == value <==>
              && value != "" && value[0] != '='
              && forall i | 0 <= i < |value| ::
                   || 'a' <= value[i] <= 'z' || 'A' <= value[i] <= 'Z' || '0' <= value[i] <= '9'
                   || value[i] in "_-./:@%+=,"
    ensures QuoteForPosix(value) != value ==> "'" <= QuoteForPosix(value) && QuoteForPosix(value)[|QuoteForPosix(value)| - 1] == '\''
  {
    SplicedIsLonger(value);
  }

  lemma {:induction false} SplicedIsLonger(s: string)
    ensures |Spliced(s)| >= |s|
  {
    if s != "" {
      SplicedIsLonger(s[1..]);
    }
  }

  // ----- printed lines -----

  function CopyLine(source: string, target: string): string {
    "cp " + QuoteForPosix(source) + " " + QuoteForPosix(target)
  }

  function MoveLine(source: string, target: string): string {
    "mv " + QuoteForPosix(source) + " " + QuoteForPosix(target)
  }

  function MakeDirectoryLine(directory: string): string { "mkdir -p " + QuoteForPosix(directory) }

  function TrimLine(file: string, kept: string, length: nat): string {
    CopyLine(file, kept) + " && dd if=/dev/null of=" + QuoteForPosix(file) + " bs=1 seek=" + Decimal(length)
  }

  lemma LexBlank(rest: string, word: Option<string>)
    ensures Lex(" " + rest, Unquoted, word) == Then(Finished(word), Lex(rest, Unquoted, None))
  {
    assert (" " + rest)[1..] == rest;
  }

  lemma LexEnd(word: Option<string>)
    ensures Lex("", Unquoted, word) == Some(Finished(word))
  {}

  lemma LexAndIf(rest: string)
    ensures Lex("&&" + rest, Unquoted, None) == Then([AndIf], Lex(rest, Unquoted, None))
  {
    assert ("&&" + rest)[2..] == rest;
    assert Finished(None) + [AndIf] == [AndIf];
  }

  /** A safe word and a blank. */
  lemma SafeWord(v: string, rest: string)
    requires AllSafe(v) && v != ""
    ensures Lex(v + " " + rest, Unquoted, None) == Then([Word(v)], Lex(rest, Unquoted, None))
  {
    hide Lex;
    assert v + " " + rest == v + (" " + rest);
    LexAllSafe(v, " " + rest, None);
    LexBlank(rest, Some("" + v));
    assert "" + v == v;
  }

  /** A quoted value and a blank, or the end of the line. */
  lemma QuotedWord(value: string, rest: string)
    ensures Lex(QuoteForPosix(value) + " " + rest, Unquoted, None) == Then([Word(value)], Lex(rest, Unquoted, None))
    ensures Lex(QuoteForPosix(value), Unquoted, None) == Some([Word(value)])
  {
    hide Lex, QuoteForPosix;
    var q := QuoteForPosix(value);
    assert q + " " + rest == q + (" " + rest);
    QuotedReads(value, " " + rest, None);
    LexBlank(rest, Some("" + value));
    assert "" + value == value;
    assert q + "" == q;
    QuotedReads(value, "", None);
    LexEnd(Some(value));
  }

  lemma TwoPaths(verb: string, source: string, target: string, rest: string)
    requires AllSafe(verb) && verb != ""
    ensures Tokens(verb + " " + QuoteForPosix(source) + " " + QuoteForPosix(target))
            == Some([Word(verb), Word(source), Word(target)])
    ensures Tokens(verb + " " + QuoteForPosix(source) + " " + QuoteForPosix(target) + " " + rest)
            == Then([Word(verb), Word(source), Word(target)], Tokens(rest))
  {
    hide Lex, QuoteForPosix;
    var a, b := QuoteForPosix(source), QuoteForPosix(target);
    assert verb + " " + a + " " + b == verb + " " + (a + " " + b);
    SafeWord(verb, a + " " + b);
    QuotedWord(source, b);
    QuotedWord(target, rest);
    assert verb + " " + a + " " + b + " " + rest == verb + " " + (a + " " + (b + " " + rest));
    SafeWord(verb, a + " " + (b + " " + rest));
    QuotedWord(source, b + " " + rest);
    var words := [Word(verb), Word(source), Word(target)];
    assert [Word(verb)] + ([Word(source)] + [Word(target)]) == words;
    if Tokens(rest).Some? {
      assert [Word(verb)] + ([Word(source)] + ([Word(target)] + Tokens(rest).value)) == words + Tokens(rest).value;
    }
  }

  /** A line that starts with a safe word. */
  lemma FirstWord(line: string, v: string, rest: string)
    requires AllSafe(v) && v != "" && line == v + " " + rest
    ensures Tokens(line) == Then([Word(v)], Tokens(rest))
  {
    hide Lex;
    SafeWord(v, rest);
  }

  lemma Put(t: Token, ts: seq<Token>, all: seq<Token>)
    requires all == [t] + ts
    ensures Then([t], Some(ts)) == Some(all)
  {}

  lemma MakeDirectoryReads(directory: string)
    ensures Tokens(MakeDirectoryLine(directory)) == Some([Word("mkdir"), Word("-p"), Word(directory)])
  {
    hide Lex, QuoteForPosix;
    var q := QuoteForPosix(directory);
    var options := "-p " + q;
    FirstWord(MakeDirectoryLine(directory), "mkdir", options);
    FirstWord(options, "-p", q);
    QuotedWord(directory, "");
    Put(Word("-p"), [Word(directory)], [Word("-p"), Word(directory)]);
    Put(Word("mkdir"), [Word("-p"), Word(directory)], [Word("mkdir"), Word("-p"), Word(directory)]);
  }

  /** Each printed line is its verb and the given paths, whatever they hold. */
  lemma LinesRead(source: string, target: string)
    ensures Tokens(CopyLine(source, target)) == Some([Word("cp"), Word(source), Word(target)])
    ensures Tokens(MoveLine(source, target)) == Some([Word("mv"), Word(source), Word(target)])
    ensures Tokens(MakeDirectoryLine(target)) == Some([Word("mkdir"), Word("-p"), Word(target)])
  {
    hide Tokens, QuoteForPosix;
    TwoPaths("cp", source, target, "");
    TwoPaths("mv", source, target, "");
    var a, b := QuoteForPosix(source), QuoteForPosix(target);
    assert "cp" + " " + a + " " + b == CopyLine(source, target);
    assert "mv" + " " + a + " " + b == MoveLine(source, target);
    MakeDirectoryReads(target);
  }

  lemma NamedReads(file: string, line: string, rest: string)
    requires line == "of=" + QuoteForPosix(file) + " " + rest
    ensures Tokens(line) == Then([Word("of=" + file)], Tokens(rest))
  {
    hide Lex, QuoteForPosix;
    var of := "of=";
    assert line == of + (QuoteForPosix(file) + (" " + rest));
    LexAllSafe(of, QuoteForPosix(file) + (" " + rest), None);
    assert "" + of == of;
    QuotedReads(file, " " + rest, Some(of));
    LexBlank(rest, Some(of + file));
  }

  lemma SeekReads(length: nat)
    ensures Tokens("seek=" + Decimal(length)) == Some([Word("seek=" + Decimal(length))])
  {
    hide Lex, Decimal;
    var seek := "seek=" + Decimal(length);
    DecimalIsSafe(length);
    LexAllSafe(seek, "", None);
    LexEnd(Some(seek));
    assert seek + "" == seek && "" + seek == seek;
  }

  lemma DecimalIsSafe(n: nat)
    ensures AllSafe("seek=" + Decimal(n)) && "seek=" + Decimal(n) != ""
  {}

  lemma AndThen(line: string, rest: string)
    requires line == "&& " + rest
    ensures Tokens(line) == Then([AndIf], Tokens(rest))
  {
    hide Lex;
    assert line == "&&" + (" " + rest);
    LexAndIf(" " + rest);
    LexBlank(rest, None);
    if Tokens(rest).Some? {
      assert Finished(None) + Tokens(rest).value == Tokens(rest).value;
    }
  }

  /** The second command of the line that shortens a file. */
  lemma CutReads(file: string, seek: string)
    requires Tokens(seek) == Some([Word(seek)])
    ensures Tokens("&& dd if=/dev/null of=" + QuoteForPosix(file) + " bs=1 " + seek)
            == Some([AndIf, Word("dd"), Word("if=/dev/null"), Word("of=" + file), Word("bs=1"), Word(seek)])
  {
    hide Tokens, QuoteForPosix;
    var sized := "bs=1 " + seek;
    var named := "of=" + QuoteForPosix(file) + " " + sized;
    var from := "if=/dev/null " + named;
    var dd := "dd " + from;
    var line := "&& " + dd;
    assert "&& dd if=/dev/null of=" + QuoteForPosix(file) + " bs=1 " + seek == line;
    FirstWord(sized, "bs=1", seek);
    NamedReads(file, named, sized);
    FirstWord(from, "if=/dev/null", named);
    FirstWord(dd, "dd", from);
    AndThen(line, dd);
    hide *;
    var bs := [Word("bs=1"), Word(seek)];
    Put(Word("bs=1"), [Word(seek)], bs);
    var of := [Word("of=" + file), Word("bs=1"), Word(seek)];
    Put(Word("of=" + file), bs, of);
    var zero := [Word("if=/dev/null"), Word("of=" + file), Word("bs=1"), Word(seek)];
    Put(Word("if=/dev/null"), of, zero);
    var cut := [Word("dd"), Word("if=/dev/null"), Word("of=" + file), Word("bs=1"), Word(seek)];
    Put(Word("dd"), zero, cut);
    Put(AndIf, cut, [AndIf, Word("dd"), Word("if=/dev/null"), Word("of=" + file), Word("bs=1"), Word(seek)]);
  }

  /** The line that shortens a file keeps a copy first, then names the file and the length in single words. */
  lemma TrimReads(file: string, kept: string, length: nat)
    ensures Tokens(TrimLine(file, kept, length))
            == Some([Word("cp"), Word(file), Word(kept), AndIf, Word("dd"), Word("if=/dev/null"),
                     Word("of=" + file), Word("bs=1"), Word("seek=" + Decimal(length))])
  {
    hide Tokens, QuoteForPosix, Decimal;
    var q, seek := QuoteForPosix(file), "seek=" + Decimal(length);
    var rest := "&& dd if=/dev/null of=" + q + " bs=1 " + seek;
    assert TrimLine(file, kept, length) == "cp" + " " + q + " " + QuoteForPosix(kept) + " " + rest;
    TwoPaths("cp", file, kept, rest);
    SeekReads(length);
    CutReads(file, seek);
    var keep, cut := [Word("cp"), Word(file), Word(kept)],
                     [AndIf, Word("dd"), Word("if=/dev/null"), Word("of=" + file), Word("bs=1"), Word(seek)];
    PutAll(keep, cut, [Word("cp"), Word(file), Word(kept), AndIf, Word("dd"), Word("if=/dev/null"),
                       Word("of=" + file), Word("bs=1"), Word(seek)]);
  }

  lemma PutAll(a: seq<Token>, b: seq<Token>, all: seq<Token>)
    requires all == a + b
    ensures Then(a, Some(b)) == Some(all)
  {}
}
