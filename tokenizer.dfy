/**
 * The tokenizer of the policy-configuration language (a Boost INFO-like
 * format). Whitespace separates tokens, `;` starts a comment that runs to the
 * end of the line, `{`, `}` and `=` are tokens of their own, a double quote
 * starts a quoted string in which a backslash protects the next character, and
 * every other run of characters is a bare word.
 *
 * The implementation hands its callers plain strings (Tokenize); the kind of
 * each token is kept in the specification (Lex), so that its properties can be
 * stated.
 */
module Tokenizer {
  import opened Wrappers

  datatype Token = Punct(c: char) | Word(w: string) | Quoted(q: string) {
    /** The string the implementation emits for this token. */
    function Text(): string {
      match this
      case Punct(c) => [c]
      case Word(w) => w
      case Quoted(q) => q
    }
  }

  /** One of the characters of " \t\n\r". */
  predicate IsSpace(c: char) { c == ' ' || c == '\t' || c == '\n' || c == '\r' }

  /** One of the characters of "{}=". */
  predicate IsPunct(c: char) { c == '{' || c == '}' || c == '=' }

  /** The characters that end a bare word: those of " \t\n\r{}=;\"". */
  predicate IsDelimiter(c: char) { IsSpace(c) || IsPunct(c) || c == ';' || c == '"' }

  /** Length of a comment: everything up to, not including, the next newline. */
  function CommentLen(t: string): (n: nat)
    ensures n <= |t|
    ensures n == |t| || t[n] == '\n'
  {
    if t == [] || t[0] == '\n' then 0 else 1 + CommentLen(t[1..])
  }

  /**
   * Length of the body of a quoted string, u being the text after the opening
   * quote: the scan stops at the first quote that no backslash protects.
   */
  function QuotedLen(u: string): (n: nat)
    ensures n <= |u|
    ensures n == |u| || u[n] == '"'
  {
    if u == [] || u[0] == '"' then 0
    else if u[0] == '\\' && |u| >= 2 then 2 + QuotedLen(u[2..])
    else 1 + QuotedLen(u[1..])
  }

  /** Length of the bare word at the start of t. */
  function WordLen(t: string): (n: nat)
    ensures n <= |t|
    ensures n == |t| || IsDelimiter(t[n])
    ensures forall i :: 0 <= i < n ==> !IsDelimiter(t[i])
  {
    if t == [] || IsDelimiter(t[0]) then 0 else 1 + WordLen(t[1..])
  }

  /**
   * The first step of the scan of a non-empty text: the token it yields, if
   * any, and how many characters it consumes (always at least one).
   */
  function Step(t: string): (r: (Option<Token>, nat))
    requires t != []
    ensures 0 < r.1 <= |t|
  {
    if IsSpace(t[0]) then (None, 1)
    else if t[0] == ';' then (None, CommentLen(t))
    else if IsPunct(t[0]) then (Some(Punct(t[0])), 1)
    else if t[0] == '"' then
      var n := QuotedLen(t[1..]);
      (Some(Quoted(t[1..1 + n])), if 1 + n < |t| then 2 + n else 1 + n)
    else
      var n := WordLen(t);
      (Some(Word(t[..n])), n)
  }

  /** The tokens of t, in order. */
  function Lex(t: string): seq<Token>
    decreases |t|
  {
    if t == [] then []
    else
      var (tok, n) := Step(t);
      (if tok.Some? then [tok.value] else []) + Lex(t[n..])
  }

  function Texts(ts: seq<Token>): (r: seq<string>)
    ensures |r| == |ts|
  {
    if ts == [] then [] else [ts[0].Text()] + Texts(ts[1..])
  }

  lemma TextsAppend(a: seq<Token>, b: seq<Token>)
    ensures Texts(a + b) == Texts(a) + Texts(b)
  {
    if a != [] {
      assert (a + b)[0] == a[0] && (a + b)[1..] == a[1..] + b;
      TextsAppend(a[1..], b);
      calc {
        Texts(a + b);
        [a[0].Text()] + Texts(a[1..] + b);
        [a[0].Text()] + (Texts(a[1..]) + Texts(b));
        ([a[0].Text()] + Texts(a[1..])) + Texts(b);
        Texts(a) + Texts(b);
      }
    } else {
      assert a + b == b;
    }
  }

  /** Index of the newline that ends the comment starting at i (or the end of text). */
  method SkipComment(text: string, i0: nat) returns (i: nat)
    requires i0 <= |text|
    ensures i == i0 + CommentLen(text[i0..])
  {
    i := i0;
    while i < |text| && text[i] != '\n'
      invariant i0 <= i <= |text|
      invariant (i - i0) + CommentLen(text[i..]) == CommentLen(text[i0..])
      decreases |text| - i
    {
      assert text[i..][1..] == text[i + 1..];
      i := i + 1;
    }
  }

  /** Index of the quote that ends the quoted body starting at start (or the end of text). */
  method ScanQuoted(text: string, start: nat) returns (i: nat)
    requires start <= |text|
    ensures i == start + QuotedLen(text[start..])
  {
    i := start;
    while i < |text| && text[i] != '"'
      invariant start <= i <= |text|
      invariant (i - start) + QuotedLen(text[i..]) == QuotedLen(text[start..])
      decreases |text| - i
    {
      ghost var u := text[i..];
      assert u != [] && u[0] == text[i] && |u| == |text| - i;
      if text[i] == '\\' && i + 1 < |text| {
        assert u[2..] == text[i + 2..];
        assert QuotedLen(u) == 2 + QuotedLen(text[i + 2..]);
        i := i + 2;
      } else {
        assert u[1..] == text[i + 1..];
        assert QuotedLen(u) == 1 + QuotedLen(text[i + 1..]);
        i := i + 1;
      }
    }
  }

  /** Index of the first delimiter at or after start (or the end of text). */
  method ScanWord(text: string, start: nat) returns (i: nat)
    requires start <= |text|
    ensures i == start + WordLen(text[start..])
  {
    i := start;
    while i < |text| && !IsDelimiter(text[i])
      invariant start <= i <= |text|
      invariant (i - start) + WordLen(text[i..]) == WordLen(text[start..])
      decreases |text| - i
    {
      assert text[i..][1..] == text[i + 1..];
      i := i + 1;
    }
  }

  /**
   * One pass of the tokenizer's loop at index i: the string emitted, if any,
   * and the index where the next pass starts.
   */
  method ScanToken(text: string, i: nat) returns (emitted: Option<string>, next: nat)
    requires i < |text|
    ensures next == i + Step(text[i..]).1
    ensures emitted == if Step(text[i..]).0.Some? then Some(Step(text[i..]).0.value.Text()) else None
  {
    ghost var t := text[i..];
    next := i;
    var c := text[i];
    if IsSpace(c) {
      emitted := None;
      next := next + 1;
    } else if c == ';' {
      emitted := None;
      next := SkipComment(text, next);
    } else if IsPunct(c) {
      assert Step(t).0 == Some(Punct(c));
      emitted := Some([c]);
      next := next + 1;
    } else if c == '"' {
      next := next + 1;
      var start := next;
      next := ScanQuoted(text, start);
      assert t[1..] == text[start..];
      assert t[1..1 + QuotedLen(t[1..])] == text[start..next];
      emitted := Some(text[start..next]);
      if next < |text| {
        next := next + 1;
      }
    } else {
      var start := next;
      next := ScanWord(text, start);
      assert !IsDelimiter(c) && t[..WordLen(t)] == text[start..next];
      emitted := None;
      if start < next {
        emitted := Some(text[start..next]);
      }
    }
  }

  /** `tokenize`: scans text left to right, appending each token's string. */
  method Tokenize(text: string) returns (tokens: seq<string>)
    ensures tokens == Texts(Lex(text))
  {
    tokens := [];
    var i := 0;
    while i < |text|
      invariant 0 <= i <= |text|
      invariant tokens + Texts(Lex(text[i..])) == Texts(Lex(text))
      decreases |text| - i
    {
      ghost var t := text[i..];
      var emitted, next := ScanToken(text, i);
      assert text[next..] == t[Step(t).1..];
      if emitted.Some? {
        assert Texts(Lex(t)) == [emitted.value] + Texts(Lex(text[next..]));
        tokens := tokens + [emitted.value];
      } else {
        assert Step(t).0 == None;
        assert Lex(t) == Lex(text[next..]);
      }
      i := next;
    }
  }
  // ---------------------------------------------------------------------
  // Properties of the tokens
  // ---------------------------------------------------------------------

  /** A bare word is non-empty and contains no delimiter. */
  predicate WordOk(w: string) {
    w != [] && forall i :: 0 <= i < |w| ==> !IsDelimiter(w[i])
  }

  /**
   * What every token of Lex satisfies: punctuation is one of `{`, `}`, `=`; a
   * bare word is WordOk; a quoted body contains no quote that ends it early.
   */
  predicate WellFormed(tok: Token) {
    match tok
    case Punct(c) => IsPunct(c)
    case Word(w) => WordOk(w)
    case Quoted(q) => QuotedLen(q) == |q|
  }

  /** Scanning the body found by QuotedLen again finds all of it. */
  lemma {:induction false} QuotedLenOfBody(u: string)
    ensures QuotedLen(u[..QuotedLen(u)]) == QuotedLen(u)
  {
    var n := QuotedLen(u);
    var b := u[..n];
    if u == [] || u[0] == '"' {
    } else if u[0] == '\\' && |u| >= 2 {
      QuotedLenOfBody(u[2..]);
      assert b[2..] == u[2..][..QuotedLen(u[2..])];
      if |b| == 2 {
        assert QuotedLen(b[2..]) == 0;
      }
    } else {
      QuotedLenOfBody(u[1..]);
      assert b[1..] == u[1..][..QuotedLen(u[1..])];
    }
  }

  lemma StepWellFormed(t: string)
    requires t != []
    ensures Step(t).0.Some? ==> WellFormed(Step(t).0.value)
  {
    if !IsSpace(t[0]) && t[0] != ';' && !IsPunct(t[0]) && t[0] == '"' {
      QuotedLenOfBody(t[1..]);
      assert t[1..1 + QuotedLen(t[1..])] == t[1..][..QuotedLen(t[1..])];
    }
  }

  /** Every token the tokenizer produces is well formed. */
  lemma {:induction false} LexWellFormed(t: string)
    ensures forall k :: 0 <= k < |Lex(t)| ==> WellFormed(Lex(t)[k])
    decreases |t|
  {
    if t != [] {
      StepWellFormed(t);
      LexWellFormed(t[Step(t).1..]);
    }
  }

  /** A bare word of the output never contains whitespace, braces, `=`, `;` or `"`. */
  lemma WordsHaveNoDelimiters(t: string, k: nat)
    requires k < |Lex(t)| && Lex(t)[k].Word?
    ensures Lex(t)[k].w != []
    ensures forall i :: 0 <= i < |Lex(t)[k].w| ==> !IsDelimiter(Lex(t)[k].w[i])
  {
    LexWellFormed(t);
  }

  /** Whitespace contributes no token. */
  lemma LexSpaceAt(c: char, rest: string)
    requires IsSpace(c)
    ensures Lex([c] + rest) == Lex(rest)
  {
    assert ([c] + rest)[1..] == rest;
  }

  lemma {:induction false} CommentLenOf(body: string, rest: string)
    requires '\n' !in body
    requires rest == [] || rest[0] == '\n'
    ensures CommentLen(body + rest) == |body|
  {
    if body != [] {
      assert (body + rest)[1..] == body[1..] + rest;
      CommentLenOf(body[1..], rest);
    } else {
      assert body + rest == rest;
    }
  }

  /** A comment, up to the end of its line, contributes no token. */
  lemma LexCommentAt(body: string, rest: string)
    requires '\n' !in body
    requires rest == [] || rest[0] == '\n'
    ensures Lex(";" + body + rest) == Lex(rest)
  {
    var t := ";" + body + rest;
    assert t == ";" + (body + rest);
    CommentLenOf(";" + body, rest);
    assert t[|";" + body|..] == rest;
  }

  /** `{`, `}` and `=` are tokens of their own, whatever follows them. */
  lemma LexPunctAt(c: char, rest: string)
    requires IsPunct(c)
    ensures Lex([c] + rest) == [Punct(c)] + Lex(rest)
  {
    assert ([c] + rest)[1..] == rest;
  }

  lemma {:induction false} WordLenOf(w: string, rest: string)
    requires forall i :: 0 <= i < |w| ==> !IsDelimiter(w[i])
    requires rest == [] || IsDelimiter(rest[0])
    ensures WordLen(w + rest) == |w|
  {
    if w != [] {
      assert (w + rest)[1..] == w[1..] + rest;
      WordLenOf(w[1..], rest);
    } else {
      assert w + rest == rest;
    }
  }

  /** A bare word runs up to the next delimiter. */
  lemma LexWordAt(w: string, rest: string)
    requires WordOk(w)
    requires rest == [] || IsDelimiter(rest[0])
    ensures Lex(w + rest) == [Word(w)] + Lex(rest)
  {
    WordLenOf(w, rest);
    assert (w + rest)[..|w|] == w && (w + rest)[|w|..] == rest;
  }

  /**
   * A quoted body that can be written between quotes: every quote and every
   * backslash in it is preceded by a backslash that protects it, and it does
   * not end in an unpaired backslash.
   */
  predicate Quotable(q: string)
    decreases |q|
  {
    q == [] ||
    (q[0] != '"' && q[0] != '\\' && Quotable(q[1..])) ||
    (q[0] == '\\' && |q| >= 2 && Quotable(q[2..]))
  }

  lemma {:induction false} QuotedLenOfQuotable(q: string, rest: string)
    requires Quotable(q)
    requires rest != [] && rest[0] == '"'
    ensures QuotedLen(q + rest) == |q|
    decreases |q|
  {
    var u := q + rest;
    if q == [] {
      assert u == rest;
    } else if q[0] == '\\' && |q| >= 2 && Quotable(q[2..]) {
      assert u[2..] == q[2..] + rest;
      QuotedLenOfQuotable(q[2..], rest);
    } else {
      assert u[1..] == q[1..] + rest;
      QuotedLenOfQuotable(q[1..], rest);
    }
  }

  /**
   * A quoted token is exactly the raw text between the quotes: backslashes are
   * kept together with the character they protect.
   */
  lemma LexQuotedAt(q: string, rest: string)
    requires Quotable(q)
    ensures Lex("\"" + q + "\"" + rest) == [Quoted(q)] + Lex(rest)
  {
    var t := "\"" + q + "\"" + rest;
    assert t[0] == '"';
    assert t[1..] == q + ("\"" + rest);
    QuotedLenOfQuotable(q, "\"" + rest);
    assert QuotedLen(t[1..]) == |q|;
    assert t[1..1 + |q|] == q;
    assert t[2 + |q|..] == rest;
    assert Step(t) == (Some(Quoted(q)), 2 + |q|);
  }

  lemma {:induction false} QuotedLenWithoutQuote(s: string)
    requires '"' !in s
    ensures QuotedLen(s) == |s|
  {
    if s != [] {
      if s[0] == '\\' && |s| >= 2 {
        QuotedLenWithoutQuote(s[2..]);
      } else {
        QuotedLenWithoutQuote(s[1..]);
      }
    }
  }

  /** A quote that is never closed takes the rest of the text as its body. */
  lemma UnterminatedQuote(s: string)
    requires '"' !in s
    ensures Lex("\"" + s) == [Quoted(s)]
  {
    var t := "\"" + s;
    assert t[1..] == s;
    QuotedLenWithoutQuote(s);
    assert t[1..1 + |s|] == s;
    assert Step(t) == (Some(Quoted(s)), |t|);
    assert t[|t|..] == [];
  }

  /** The text of a token as it can be written in a configuration file. */
  function Source(tok: Token): string {
    match tok
    case Punct(c) => [c]
    case Word(w) => w
    case Quoted(q) => "\"" + q + "\""
  }

  predicate Renderable(tok: Token) {
    match tok
    case Punct(c) => IsPunct(c)
    case Word(w) => WordOk(w)
    case Quoted(q) => Quotable(q)
  }

  /** Writes tokens out, separated by single spaces. */
  function Render(ts: seq<Token>): string {
    if ts == [] then ""
    else if |ts| == 1 then Source(ts[0])
    else Source(ts[0]) + (" " + Render(ts[1..]))
  }

  /** A renderable token written out is lexed back, when a space or the end follows. */
  lemma LexSource(tok: Token, rest: string)
    requires Renderable(tok)
    requires rest == [] || IsSpace(rest[0])
    ensures Lex(Source(tok) + rest) == [tok] + Lex(rest)
  {
    match tok
    case Punct(c) =>
      LexPunctAt(c, rest);
    case Word(w) =>
      LexWordAt(w, rest);
    case Quoted(q) =>
      assert Source(tok) + rest == "\"" + q + "\"" + rest;
      LexQuotedAt(q, rest);
  }

  /** Tokenizing a rendering gives back the tokens that were rendered. */
  lemma {:induction false} LexRender(ts: seq<Token>)
    requires forall k :: 0 <= k < |ts| ==> Renderable(ts[k])
    ensures Lex(Render(ts)) == ts
  {
    if |ts| == 1 {
      LexSource(ts[0], "");
      assert Source(ts[0]) + "" == Source(ts[0]);
    } else if |ts| > 1 {
      var rest := Render(ts[1..]);
      LexRender(ts[1..]);
      LexSpaceAt(' ', rest);
      assert " " + rest == [' '] + rest;
      LexSource(ts[0], " " + rest);
      assert ts == [ts[0]] + ts[1..];
    }
  }

  /** Two words separated by a space give two tokens. */
  lemma LexKeyValue(key: string, value: string)
    requires WordOk(key) && WordOk(value)
    ensures Lex(key + " " + value) == [Word(key), Word(value)]
  {
    var t1 := " " + value;
    assert Lex(t1) == [Word(value)] by {
      LexSpaceAt(' ', value);
      LexSource(Word(value), "");
      assert t1 == [' '] + value && value + "" == value;
    }
    LexSource(Word(key), t1);
    Assoc(key, " ", value);
  }

  /** `key value` gives two tokens. */
  lemma ExampleKeyValue()
    ensures Texts(Lex("key value")) == ["key", "value"]
  {
    assert WordOk("key") && WordOk("value");
    LexKeyValue("key", "value");
    assert "key" + " " + "value" == "key value";
  }

  /** A quoted value keeps its spaces and is one token. */
  lemma LexQuotedSetting(key: string, value: string)
    requires WordOk(key) && Quotable(value)
    ensures Lex(key + " \"" + value + "\"") == [Word(key), Quoted(value)]
  {
    var q := "\"" + value + "\"";
    var t1 := " " + q;
    assert Lex(t1) == [Quoted(value)] by {
      LexSpaceAt(' ', q);
      LexQuotedAt(value, "");
      assert t1 == [' '] + q && q + "" == q;
    }
    LexSource(Word(key), t1);
    assert key + " \"" + value + "\"" == key + t1 by {
      Assoc(key + " \"", value, "\"");
      Assoc(key, " \"", value + "\"");
      assert " \"" + (value + "\"") == t1;
    }
  }

  /** `=` is a token of its own. */
  lemma LexAssignment(key: string, value: string)
    requires WordOk(key) && WordOk(value)
    ensures Lex(key + " = " + value) == [Word(key), Punct('='), Word(value)]
  {
    var t1 := " " + value;
    var t2 := "=" + t1;
    var t3 := " " + t2;
    assert Lex(t1) == [Word(value)] by {
      LexSpaceAt(' ', value);
      LexSource(Word(value), "");
      assert t1 == [' '] + value && value + "" == value;
    }
    assert Lex(t3) == [Punct('=')] + Lex(t1) by {
      LexSpaceAt(' ', t2);
      LexPunctAt('=', t1);
      assert t3 == [' '] + t2 && t2 == ['='] + t1;
    }
    assert Lex(key + t3) == [Word(key)] + Lex(t3) by {
      LexSource(Word(key), t3);
    }
    assert key + " = " + value == key + t3 by {
      Assoc(key, " = ", value);
      assert " = " + value == t3;
    }
  }

  /** A comment after a setting is dropped up to the end of its line. */
  lemma LexCommentedLine(key: string, value: string, comment: string, rest: string)
    requires WordOk(key) && WordOk(value)
    requires '\n' !in comment
    ensures Lex(key + " " + value + " ;" + comment + "\n" + rest) == [Word(key), Word(value)] + Lex(rest)
  {
    var nl := "\n" + rest;
    var tail := ";" + comment + nl;
    var t1 := " " + tail;
    var t2 := value + t1;
    var t3 := " " + t2;
    assert Lex(tail) == Lex(rest) by {
      LexSpaceAt('\n', rest);
      LexCommentAt(comment, nl);
      assert nl == ['\n'] + rest;
    }
    assert Lex(t2) == [Word(value)] + Lex(tail) by {
      LexSpaceAt(' ', tail);
      LexSource(Word(value), t1);
      assert t1 == [' '] + tail;
    }
    assert Lex(key + t3) == [Word(key)] + Lex(t2) by {
      LexSpaceAt(' ', t2);
      LexSource(Word(key), t3);
      assert t3 == [' '] + t2;
    }
    assert key + " " + value + " ;" + comment + "\n" + rest == key + t3 by {
      Assoc(key + " " + value + " ;" + comment, "\n", rest);
      Assoc(key + " " + value + " ;", comment, nl);
      Assoc(key + " " + value, " ;", comment + nl);
      assert " ;" + (comment + nl) == t1;
      Assoc(key + " ", value, t1);
      Assoc(key, " ", t2);
    }
  }

  /** String concatenation regroups; a separate lemma keeps this out of the examples' proof contexts. */
  lemma Assoc(a: string, b: string, c: string)
    ensures a + b + c == a + (b + c)
  {
  }

  lemma {:induction false} QuotableWithoutSpecials(q: string)
    requires forall i :: 0 <= i < |q| ==> q[i] != '"' && q[i] != '\\'
    ensures Quotable(q)
  {
    if q != [] {
      QuotableWithoutSpecials(q[1..]);
    }
  }
}
