/** cmd/gemba-bridge/preuse.go: the shell tokenizer. */
module BashTokens {
  import opened Outcomes

  /** The tokenizer between two characters. */
  datatype Scan = Scan(out: seq<string>, cur: string, quote: Option<char>)

  predicate IsQuote(c: char) { c == '"' || c == '\'' }

  predicate IsBlank(c: char) { c == ' ' || c == '\t' }

  function Flushed(s: Scan): Scan {
    if s.cur != "" then s.(out := s.out + [s.cur], cur := "") else s
  }

  function Next(s: Scan, c: char): Scan {
    if s.quote.Some? then
      if c == s.quote.value then s.(quote := None) else s.(cur := s.cur + [c])
    else if IsQuote(c) then s.(quote := Some(c))
    else if IsBlank(c) then Flushed(s)
    else s.(cur := s.cur + [c])
  }

  function ScanFrom(s: Scan, text: string): Scan {
    if text == "" then s else Next(ScanFrom(s, text[..|text| - 1]), text[|text| - 1])
  }

  const START := Scan([], "", None)

  function Tokens(text: string): seq<string> {
    Flushed(ScanFrom(START, text)).out
  }

  method TokenizeBash(s: string) returns (out: seq<string>)
    ensures out == Tokens(s)
  {
    out := [];
    var cur := "";
    var quote: Option<char> := None;
    for i := 0 to |s|
      invariant Scan(out, cur, quote) == ScanFrom(START, s[..i])
    {
      var c := s[i];
      assert s[..i + 1][..i] == s[..i];
      if quote.Some? {
        if c == quote.value {
          quote := None;
        } else {
          cur := cur + [c];
        }
      } else if c == '"' || c == '\'' {
        quote := Some(c);
      } else if c == ' ' || c == '\t' {
        if |cur| > 0 {
          out := out + [cur];
          cur := "";
        }
      } else {
        cur := cur + [c];
      }
    }
    assert s[..|s|] == s;
    if |cur| > 0 {
      out := out + [cur];
    }
  }

  // Quoting, and that the tokenizer undoes it

  /** A stretch of one word, in one of the three ways the shell lets it be written. */
  datatype Piece = Bare(text: string) | Single(text: string) | Double(text: string)

  predicate ValidPiece(p: Piece) {
    match p
    case Bare(t) => forall c | c in t :: !IsQuote(c) && !IsBlank(c)
    case Single(t) => '\'' !in t
    case Double(t) => '"' !in t
  }

  type Word = seq<Piece>

  predicate ValidWord(w: Word) {
    forall p | p in w :: ValidPiece(p)
  }

  predicate IsGap(g: string) {
    forall c | c in g :: IsBlank(c)
  }

  function Written(p: Piece): string {
    match p
    case Bare(t) => t
    case Single(t) => "'" + t + "'"
    case Double(t) => "\"" + t + "\""
  }

  function WrittenWord(w: Word): string {
    if w == [] then "" else WrittenWord(w[..|w| - 1]) + Written(w[|w| - 1])
  }

  /** What a word stands for. */
  function Meaning(w: Word): string {
    if w == [] then "" else Meaning(w[..|w| - 1]) + w[|w| - 1].text
  }

  function Meanings(words: seq<Word>): seq<string> {
    seq(|words|, i requires 0 <= i < |words| => Meaning(words[i]))
  }

  /** A command line: gap, word, gap, word, ..., gap. */
  predicate ValidLine(words: seq<Word>, gaps: seq<string>) {
    && |gaps| == |words| + 1
    && (forall i | 0 <= i < |words| :: ValidWord(words[i]) && Meaning(words[i]) != "")
    && (forall i | 0 <= i < |gaps| :: IsGap(gaps[i]))
    && (forall i | 0 < i < |gaps| - 1 :: gaps[i] != "")
  }

  function Line(words: seq<Word>, gaps: seq<string>): string
    requires |gaps| == |words| + 1
  {
    if words == [] then gaps[0] else
      var n := |words| - 1;
      Line(words[..n], gaps[..n + 1]) + WrittenWord(words[n]) + gaps[n + 1]
  }

  lemma {:induction false} ScanConcat(s: Scan, a: string, b: string)
    ensures ScanFrom(s, a + b) == ScanFrom(ScanFrom(s, a), b)
  {
    if b == "" {
      assert a + b == a;
    } else {
      var n := |b| - 1;
      assert (a + b)[..|a + b| - 1] == a + b[..n];
      ScanConcat(s, a, b[..n]);
    }
  }

  lemma {:induction false} ScanQuoted(s: Scan, q: char, text: string)
    requires s.quote == Some(q) && q !in text
    ensures ScanFrom(s, text) == s.(cur := s.cur + text)
  {
    if text != "" {
      var n := |text| - 1;
      assert text == text[..n] + [text[n]] && text[n] in text;
      ScanQuoted(s, q, text[..n]);
    } else {
      assert s.cur + text == s.cur;
    }
  }

  lemma {:induction false} ScanBare(s: Scan, text: string)
    requires s.quote.None? && ValidPiece(Bare(text))
    ensures ScanFrom(s, text) == s.(cur := s.cur + text)
  {
    if text != "" {
      var n := |text| - 1;
      assert text == text[..n] + [text[n]] && text[n] in text;
      ScanBare(s, text[..n]);
    } else {
      assert s.cur + text == s.cur;
    }
  }

  lemma ScanOne(s: Scan, c: char)
    ensures ScanFrom(s, [c]) == Next(s, c)
  {
    assert [c][..0] == "";
  }

  lemma ScanInQuotes(s: Scan, q: char, text: string)
    requires s.quote.None? && IsQuote(q) && q !in text
    ensures ScanFrom(s, [q] + text + [q]) == s.(cur := s.cur + text)
  {
    ScanConcat(s, [q] + text, [q]);
    ScanConcat(s, [q], text);
    ScanOne(s, q);
    ScanQuoted(s.(quote := Some(q)), q, text);
    ScanOne(s.(quote := Some(q), cur := s.cur + text), q);
  }

  lemma ScanPiece(s: Scan, p: Piece)
    requires s.quote.None? && ValidPiece(p)
    ensures ScanFrom(s, Written(p)) == s.(cur := s.cur + p.text)
  {
    match p
    case Bare(t) => ScanBare(s, t);
    case Single(t) => ScanInQuotes(s, '\'', t);
    case Double(t) => ScanInQuotes(s, '"', t);
  }

  lemma Assoc(a: string, b: string, c: string)
    ensures a + b + c == a + (b + c)
  {
  }

  lemma MeaningsInit(words: seq<Word>)
    requires words != []
    ensures Meanings(words) == Meanings(words[..|words| - 1]) + [Meaning(words[|words| - 1])]
  {
  }

  lemma {:induction false} ScanWord(s: Scan, w: Word)
    requires s.quote.None? && ValidWord(w)
    ensures ScanFrom(s, WrittenWord(w)) == s.(cur := s.cur + Meaning(w))
  {
    if w == [] {
      assert s.cur + "" == s.cur;
    } else {
      var init, p := w[..|w| - 1], w[|w| - 1];
      assert p in w;
      ScanWord(s, init);
      ScanConcat(s, WrittenWord(init), Written(p));
      var mid := s.(cur := s.cur + Meaning(init));
      ScanPiece(mid, p);
      Assoc(s.cur, Meaning(init), p.text);
    }
  }

  lemma {:induction false} ScanGap(s: Scan, gap: string)
    requires s.quote.None? && IsGap(gap)
    ensures ScanFrom(s, gap) == if gap == "" then s else Flushed(s)
  {
    if gap != "" {
      var n := |gap| - 1;
      assert gap[n] in gap && forall c | c in gap[..n] :: c in gap;
      ScanGap(s, gap[..n]);
    }
  }

  /** One more word and gap, after a line that left no unfinished token. */
  lemma ScanWordGap(init: string, out: seq<string>, w: Word, gap: string)
    requires ScanFrom(START, init) == Scan(out, "", None)
    requires ValidWord(w) && Meaning(w) != "" && IsGap(gap)
    ensures ScanFrom(START, init + WrittenWord(w) + gap)
      == if gap == "" then Scan(out, Meaning(w), None) else Scan(out + [Meaning(w)], "", None)
  {
    ScanConcat(START, init, WrittenWord(w));
    ScanWord(Scan(out, "", None), w);
    assert "" + Meaning(w) == Meaning(w);
    ScanConcat(START, init + WrittenWord(w), gap);
    ScanGap(Scan(out, Meaning(w), None), gap);
  }

  lemma {:induction false} ScanLine(words: seq<Word>, gaps: seq<string>)
    requires ValidLine(words, gaps)
    ensures ScanFrom(START, Line(words, gaps)) ==
      if words == [] || gaps[|words|] != "" then Scan(Meanings(words), "", None)
      else Scan(Meanings(words[..|words| - 1]), Meaning(words[|words| - 1]), None)
  {
    if words == [] {
      ScanGap(START, gaps[0]);
      assert Meanings(words) == [];
    } else {
      var n := |words| - 1;
      var init := words[..n];
      ScanLine(init, gaps[..n + 1]);
      MeaningsInit(words);
      ScanWordGap(Line(init, gaps[..n + 1]), Meanings(init), words[n], gaps[n + 1]);
    }
  }

  /** However a list of non-empty words is quoted and spaced, tokenizing the line gives the
      words back. */
  lemma TokenizingUndoesQuoting(words: seq<Word>, gaps: seq<string>)
    requires ValidLine(words, gaps)
    ensures Tokens(Line(words, gaps)) == Meanings(words)
  {
    ScanLine(words, gaps);
    if words != [] {
      MeaningsInit(words);
    }
  }

  /** A way to quote any token: each character in single quotes, or double if it is one. */
  function Quote(token: string): (w: Word)
    ensures ValidWord(w) && Meaning(w) == token
  {
    if token == "" then [] else
      var n := |token| - 1;
      var c := token[n];
      var w := Quote(token[..n]) + [if c == '\'' then Double([c]) else Single([c])];
      assert w[..|w| - 1] == Quote(token[..n]);
      assert token == token[..n] + [c];
      w
  }

  /** So every list of non-empty tokens, over any characters, has a line that tokenizes to it. */
  lemma EveryTokenListIsTokenized(tokens: seq<string>)
    requires forall t | t in tokens :: t != ""
    ensures var words := seq(|tokens|, i requires 0 <= i < |tokens| => Quote(tokens[i]));
            Tokens(Line(words, seq(|tokens| + 1, i => " "))) == tokens
  {
    var words := seq(|tokens|, i requires 0 <= i < |tokens| => Quote(tokens[i]));
    assert forall i | 0 <= i < |tokens| :: tokens[i] in tokens;
    TokenizingUndoesQuoting(words, seq(|tokens| + 1, i => " "));
    assert Meanings(words) == tokens;
  }

  lemma {:induction false} ScanKeepsNonEmpty(text: string)
    ensures forall t | t in ScanFrom(START, text).out :: t != ""
  {
    if text != "" {
      ScanKeepsNonEmpty(text[..|text| - 1]);
    }
  }

  lemma NoEmptyToken(text: string)
    ensures forall t | t in Tokens(text) :: t != ""
  {
    ScanKeepsNonEmpty(text);
  }
}
