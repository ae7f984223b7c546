/**
 The command line's two tokenizers: the in-place compacting lexer that parsing
 uses, and the non-destructive splitter that completion uses. They are separate
 programs and must agree on where words lie and what they say.
 */
module Lexer {
  import opened Common

  type Byte = b: nat | b < 256

  const DQUOTE: Byte := 34
  const SQUOTE: Byte := 39
  const BACKSLASH: Byte := 92
  const MAX_TOKENS: nat := 32

  predicate IsSpace(b: Byte) { b == 32 || b == 9 || b == 13 || b == 10 }
  predicate IsQuote(b: Byte) { b == SQUOTE || b == DQUOTE }

  datatype Error = LineTooLong | TrailingEscape | UnterminatedQuote | TooManyTokens

  // ---------------------------------------------------------------------
  // Reference: lexing as a function of the original bytes
  // ---------------------------------------------------------------------

  datatype Scanned = Scanned(text: seq<Byte>, end: nat)

  /**
   One word of `s` from `i` on, in quote state `quote`, after the text `acc`:
   its unquoted text and where it ends.
   */
  function Word(s: seq<Byte>, i: nat, quote: Option<Byte>, acc: seq<Byte>): (r: Result<Scanned, Error>)
    requires i <= |s|
    ensures r.Ok? ==> i <= r.value.end <= |s|
    decreases |s| - i
  {
    if i == |s| then
      if quote.Some? then Err(UnterminatedQuote) else Ok(Scanned(acc, i))
    else if quote == Some(s[i]) then Word(s, i + 1, None, acc)
    else if s[i] == BACKSLASH then
      if i + 1 == |s| then Err(TrailingEscape) else Word(s, i + 2, quote, acc + [s[i + 1]])
    else if quote.None? && IsQuote(s[i]) then Word(s, i + 1, Some(s[i]), acc)
    else if quote.None? && IsSpace(s[i]) then Ok(Scanned(acc, i))
    else Word(s, i + 1, quote, acc + [s[i]])
  }

  /** The first position from `i` on that is not a blank. */
  function SkipBlanks(s: seq<Byte>, i: nat): (j: nat)
    requires i <= |s|
    ensures i <= j <= |s| && (j < |s| ==> !IsSpace(s[j]))
    ensures forall k | i <= k < j :: IsSpace(s[k])
    decreases |s| - i
  {
    if i < |s| && IsSpace(s[i]) then SkipBlanks(s, i + 1) else i
  }

  lemma WordProgress(s: seq<Byte>, i: nat)
    requires i < |s| && !IsSpace(s[i]) && Word(s, i, None, []).Ok?
    ensures Word(s, i, None, []).value.end > i
  {
  }

  /** The tokens of `s` from `i` on, after the tokens `acc`. */
  function Tokens(s: seq<Byte>, i: nat, acc: seq<seq<Byte>>): Result<seq<seq<Byte>>, Error>
    requires i <= |s|
    decreases |s| - i
  {
    var j := SkipBlanks(s, i);
    if j == |s| then Ok(acc)
    else
      match Word(s, j, None, [])
      case Err(e) => Err(e)
      case Ok(w) =>
        WordProgress(s, j);
        if |acc| >= MAX_TOKENS then Err(TooManyTokens) else Tokens(s, w.end, acc + [w.text])
  }

  // ---------------------------------------------------------------------
  // The in-place lexer
  // ---------------------------------------------------------------------

  datatype Token = Token(start: nat, end: nat)

  /** The token spans of the compacted bytes spell out `texts`. */
  ghost predicate Spells(bytes: seq<Byte>, tokens: seq<Token>, texts: seq<seq<Byte>>) {
    && |tokens| == |texts|
    && (forall i | 0 <= i < |tokens| ::
          tokens[i].start <= tokens[i].end <= |bytes| && bytes[tokens[i].start..tokens[i].end] == texts[i])
  }

  /** The unread part of the buffer is still the original line. */
  ghost predicate Unread(buffer: array<Byte>, s: seq<Byte>, read: nat)
    reads buffer
  {
    |s| <= buffer.Length && forall k | read <= k < |s| :: buffer[k] == s[k]
  }

  method SkipBlanksAt(buffer: array<Byte>, len: nat, from: nat, ghost s: seq<Byte>) returns (read: nat)
    requires |s| == len && from <= len && Unread(buffer, s, from)
    ensures read == SkipBlanks(s, from)
  {
    read := from;
    while read < len && IsSpace(buffer[read])
      invariant from <= read <= len
      invariant SkipBlanks(s, from) == SkipBlanks(s, read)
    {
      read := read + 1;
    }
  }

  /**
   Lexes one word in place: its text is written from `from` on, never ahead of
   the reading position, so unread input is intact.
   */
  method LexWord(buffer: array<Byte>, len: nat, start: nat, from: nat, ghost s: seq<Byte>)
    returns (error: Option<Error>, read: nat, write: nat)
    requires |s| == len && from <= start <= len && Unread(buffer, s, start)
    modifies buffer
    ensures from <= write <= read <= len
    ensures Unread(buffer, s, read)
    ensures forall k | 0 <= k < from || len <= k < buffer.Length :: buffer[k] == old(buffer[k])
    ensures match error
            case Some(e) => Word(s, start, None, []) == Err(e)
            case None => Word(s, start, None, []) == Ok(Scanned(buffer[from..write], read))
  {
    read, write := start, from;
    var quote: Option<Byte> := None;
    assert buffer[from..from] == [];
    while read < len
      invariant from <= write <= read <= len && start <= read
      invariant Unread(buffer, s, read)
      invariant forall k | 0 <= k < from || len <= k < buffer.Length :: buffer[k] == old(buffer[k])
      invariant Word(s, start, None, []) == Word(s, read, quote, buffer[from..write])
    {
      var b := buffer[read];
      ghost var done := buffer[from..write];
      if quote == Some(b) {
        quote := None;
        read := read + 1;
      } else if b == BACKSLASH {
        read := read + 1;
        if read == len {
          return Some(TrailingEscape), read, write;
        }
        buffer[write] := buffer[read];
        write := write + 1;
        read := read + 1;
        assert buffer[from..write] == done + [s[read - 1]];
      } else if quote.None? && IsQuote(b) {
        quote := Some(b);
        read := read + 1;
      } else if quote.None? && IsSpace(b) {
        return None, read, write;
      } else {
        buffer[write] := b;
        write := write + 1;
        read := read + 1;
        assert buffer[from..write] == done + [b];
      }
    }
    error := if quote.Some? then Some(UnterminatedQuote) else None;
  }

  /** Lexing in place computes what lexing the original bytes would. */
  method Lex(buffer: array<Byte>, len: nat) returns (r: Result<(nat, seq<Token>), Error>)
    modifies buffer
    ensures len > buffer.Length || len > 65_535 ==> r == Err(LineTooLong) && buffer[..] == old(buffer[..])
    ensures len <= buffer.Length && len <= 65_535 ==>
              match Tokens(old(buffer[..len]), 0, [])
              case Err(e) => r == Err(e)
              case Ok(texts) => r.Ok? && r.value.0 <= len && Spells(buffer[..r.value.0], r.value.1, texts)
    ensures forall k | len <= k < buffer.Length :: buffer[k] == old(buffer[k])
  {
    if len > buffer.Length || len > U16_MAX {
      return Err(LineTooLong);
    }
    ghost var s := buffer[..len];
    var tokens: seq<Token> := [];
    ghost var texts: seq<seq<Byte>> := [];
    var read, write := 0, 0;
    while read < len
      invariant write <= read <= len
      invariant Unread(buffer, s, read)
      invariant forall k | len <= k < buffer.Length :: buffer[k] == old(buffer[k])
      invariant Spells(buffer[..write], tokens, texts)
      invariant Tokens(s, 0, []) == Tokens(s, read, texts)
    {
      var word := SkipBlanksAt(buffer, len, read, s);
      if word == len {
        break;
      }
      ghost var before := buffer[..write];
      var start, error := write, None;
      error, read, write := LexWord(buffer, len, word, start, s);
      if error.Some? {
        return Err(error.value);
      }
      WordProgress(s, word);
      if |tokens| >= MAX_TOKENS {
        return Err(TooManyTokens);
      }
      SpellsMore(before, buffer[..write], tokens, texts, buffer[start..write]);
      tokens := tokens + [Token(start, write)];
      texts := texts + [buffer[start..write]];
      ghost var end := read;
      read := SkipBlanksAt(buffer, len, read, s);
      BlanksDoNotMatter(s, end, texts);
    }
    return Ok((write, tokens));
  }

  lemma SpellsMore(before: seq<Byte>, after: seq<Byte>, tokens: seq<Token>, texts: seq<seq<Byte>>, text: seq<Byte>)
    requires Spells(before, tokens, texts)
    requires |before| <= |after| && after[..|before|] == before && after[|before|..] == text
    ensures Spells(after, tokens + [Token(|before|, |after|)], texts + [text])
  {
    forall i | 0 <= i < |tokens|
      ensures after[tokens[i].start..tokens[i].end] == texts[i]
    {
      assert tokens[i].start <= tokens[i].end <= |before|;
      assert after[tokens[i].start..tokens[i].end] == after[..|before|][tokens[i].start..tokens[i].end];
    }
  }

  lemma BlanksDoNotMatter(s: seq<Byte>, i: nat, acc: seq<seq<Byte>>)
    requires i <= |s|
    ensures Tokens(s, i, acc) == Tokens(s, SkipBlanks(s, i), acc)
  {
    assert SkipBlanks(s, SkipBlanks(s, i)) == SkipBlanks(s, i);
  }

  // ---------------------------------------------------------------------
  // The completion splitter
  // ---------------------------------------------------------------------

  /** Where the raw word at `i` ends: quotes and escapes never end it. */
  function RawEnd(s: seq<Byte>, i: nat, quote: Option<Byte>): (end: nat)
    requires i <= |s|
    ensures i <= end <= |s|
    decreases |s| - i
  {
    if i == |s| then i
    else if quote == Some(s[i]) then RawEnd(s, i + 1, None)
    else if s[i] == BACKSLASH then
      if i + 1 == |s| then i + 1 else RawEnd(s, i + 2, quote)
    else if quote.None? && IsQuote(s[i]) then RawEnd(s, i + 1, Some(s[i]))
    else if quote.None? && IsSpace(s[i]) then i
    else RawEnd(s, i + 1, quote)
  }

  /** The logical characters of the raw, possibly unfinished, word `raw` from `i` on. */
  function Logical(raw: seq<Byte>, i: nat, quote: Option<Byte>): seq<Byte>
    requires i <= |raw|
    decreases |raw| - i
  {
    if i == |raw| then []
    else if quote == Some(raw[i]) then Logical(raw, i + 1, None)
    else if raw[i] == BACKSLASH then
      if i + 1 == |raw| then [] else [raw[i + 1]] + Logical(raw, i + 2, quote)
    else if quote.None? && IsQuote(raw[i]) then Logical(raw, i + 1, Some(raw[i]))
    else [raw[i]] + Logical(raw, i + 1, quote)
  }

  lemma RawProgress(s: seq<Byte>, i: nat)
    requires i < |s| && !IsSpace(s[i])
    ensures RawEnd(s, i, None) > i
  {
  }

  /** The spans of the raw words from `i` on, after the spans `acc`; at most `MAX_TOKENS` in all. */
  function RawWords(s: seq<Byte>, i: nat, acc: seq<Token>): seq<Token>
    requires i <= |s|
    decreases |s| - i
  {
    var j := SkipBlanks(s, i);
    if j == |s| || |acc| >= MAX_TOKENS then acc
    else
      RawProgress(s, j);
      RawWords(s, RawEnd(s, j, None), acc + [Token(j, RawEnd(s, j, None))])
  }

  /** Whether blanks follow the last word, when `n` words were found before `i`. */
  predicate TrailingBlank(s: seq<Byte>, i: nat, n: nat)
    requires i <= |s|
    decreases |s| - i
  {
    var j := SkipBlanks(s, i);
    if j == |s| then i < j
    else
      RawProgress(s, j);
      n < MAX_TOKENS && TrailingBlank(s, RawEnd(s, j, None), n + 1)
  }

  method FindRawEnd(text: seq<Byte>, start: nat) returns (read: nat)
    requires start <= |text|
    ensures read == RawEnd(text, start, None)
  {
    read := start;
    var quote: Option<Byte> := None;
    while read < |text|
      invariant start <= read <= |text|
      invariant RawEnd(text, start, None) == RawEnd(text, read, quote)
    {
      var byte := text[read];
      if quote == Some(byte) {
        quote := None;
        read := read + 1;
      } else if byte == BACKSLASH {
        read := read + 1;
        if read < |text| {
          read := read + 1;
        }
      } else if quote.None? && IsQuote(byte) {
        quote := Some(byte);
        read := read + 1;
      } else if quote.None? && IsSpace(byte) {
        return;
      } else {
        read := read + 1;
      }
    }
  }

  /** The completion splitter finds the raw words, and whether the cursor stands after a blank. */
  method CompletionWords(text: seq<Byte>) returns (words: seq<Token>, trailingSpace: bool)
    ensures words == RawWords(text, 0, [])
    ensures trailingSpace <==> TrailingBlank(text, 0, 0)
  {
    words, trailingSpace := [], false;
    var read := 0;
    while read < |text|
      invariant read <= |text|
      invariant RawWords(text, 0, []) == RawWords(text, read, words)
      invariant !trailingSpace && TrailingBlank(text, 0, 0) == TrailingBlank(text, read, |words|)
      decreases |text| - read
    {
      ghost var from := read;
      while read < |text| && IsSpace(text[read])
        invariant from <= read <= |text|
        invariant SkipBlanks(text, from) == SkipBlanks(text, read)
        invariant trailingSpace <==> read > from
      {
        read := read + 1;
        trailingSpace := true;
      }
      if read == |text| {
        break;
      }
      trailingSpace := false;
      var start := read;
      RawProgress(text, start);
      read := FindRawEnd(text, start);
      if |words| >= MAX_TOKENS {
        return;
      }
      words := words + [Token(start, read)];
    }
  }

  /** `Logical`: an iterator over a raw word that resolves quotes and escapes. */
  class LogicalIterator {
    const bytes: seq<Byte>
    var read: nat
    var quote: Option<Byte>

    ghost predicate Valid()
      reads this
    {
      read <= |bytes|
    }

    /** What remains to be produced. */
    ghost function Rest(): seq<Byte>
      requires Valid()
      reads this
    {
      Logical(bytes, read, quote)
    }

    constructor (raw: seq<Byte>)
      ensures Valid() && bytes == raw && Rest() == Logical(raw, 0, None)
    {
      bytes := raw;
      read := 0;
      quote := None;
    }

    method Next() returns (b: Option<Byte>)
      requires Valid()
      modifies this
      ensures Valid()
      ensures b.Some? ==> old(Rest()) == [b.value] + Rest()
      ensures b.None? ==> old(Rest()) == [] && Rest() == []
    {
      while read < |bytes|
        invariant Valid() && Rest() == old(Rest())
        decreases |bytes| - read
      {
        var byte := bytes[read];
        if quote == Some(byte) {
          quote := None;
          read := read + 1;
        } else if byte == BACKSLASH {
          read := read + 1;
          if read == |bytes| {
            return None;
          }
          var escaped := bytes[read];
          read := read + 1;
          return Some(escaped);
        } else if quote.None? && IsQuote(byte) {
          quote := Some(byte);
          read := read + 1;
        } else {
          read := read + 1;
          return Some(byte);
        }
      }
      return None;
    }
  }

  // ---------------------------------------------------------------------
  // Agreement
  // ---------------------------------------------------------------------

  /** The logical text of the span `i..end` read inside the whole line. */
  function LogicalSpan(s: seq<Byte>, i: nat, end: nat, quote: Option<Byte>): seq<Byte>
    requires i <= end <= |s|
  {
    Logical(s[..end], i, quote)
  }

  /** On one word: same extent, and the raw word's logical text is the token. */
  lemma {:induction false} WordAgrees(s: seq<Byte>, i: nat, quote: Option<Byte>, acc: seq<Byte>)
    requires i <= |s| && Word(s, i, quote, acc).Ok?
    ensures RawEnd(s, i, quote) == Word(s, i, quote, acc).value.end
    ensures acc + LogicalSpan(s, i, RawEnd(s, i, quote), quote) == Word(s, i, quote, acc).value.text
    decreases |s| - i
  {
    if i < |s| {
      var end := RawEnd(s, i, quote);
      if quote == Some(s[i]) {
        WordAgrees(s, i + 1, None, acc);
      } else if s[i] == BACKSLASH {
        WordAgrees(s, i + 2, quote, acc + [s[i + 1]]);
        assert acc + [s[i + 1]] + LogicalSpan(s, i + 2, end, quote) == acc + LogicalSpan(s, i, end, quote);
      } else if quote.None? && IsQuote(s[i]) {
        WordAgrees(s, i + 1, Some(s[i]), acc);
      } else if quote.None? && IsSpace(s[i]) {
      } else {
        WordAgrees(s, i + 1, quote, acc + [s[i]]);
        assert acc + [s[i]] + LogicalSpan(s, i + 1, end, quote) == acc + LogicalSpan(s, i, end, quote);
      }
    }
  }

  /** The logical text of a span is that of the raw word cut out of the line. */
  lemma {:induction false} SpanIsSlice(s: seq<Byte>, start: nat, end: nat, i: nat, quote: Option<Byte>)
    requires start <= i <= end <= |s|
    ensures LogicalSpan(s, i, end, quote) == Logical(s[start..end], i - start, quote)
    decreases end - i
  {
    if i < end {
      var raw := s[start..end];
      assert raw[i - start] == s[..end][i];
      if quote == Some(s[i]) {
        SpanIsSlice(s, start, end, i + 1, None);
      } else if s[i] == BACKSLASH {
        if i + 1 < end {
          assert raw[i + 1 - start] == s[..end][i + 1];
          SpanIsSlice(s, start, end, i + 2, quote);
        }
      } else if quote.None? && IsQuote(s[i]) {
        SpanIsSlice(s, start, end, i + 1, Some(s[i]));
      } else {
        SpanIsSlice(s, start, end, i + 1, quote);
      }
    }
  }

  /** The raw words' logical texts are `texts`. */
  ghost predicate Means(line: seq<Byte>, words: seq<Token>, texts: seq<seq<Byte>>) {
    && |words| == |texts|
    && (forall i | 0 <= i < |words| ::
          && words[i].start <= words[i].end <= |line|
          && Logical(line[words[i].start..words[i].end], 0, None) == texts[i])
  }

  /** Whenever lexing succeeds, completion sees the same words saying the same things. */
  lemma {:induction false} TokenizersAgree(line: seq<Byte>, i: nat, words: seq<Token>, texts: seq<seq<Byte>>)
    requires i <= |line| && Means(line, words, texts) && Tokens(line, i, texts).Ok?
    ensures Means(line, RawWords(line, i, words), Tokens(line, i, texts).value)
    decreases |line| - i
  {
    var j := SkipBlanks(line, i);
    if j < |line| {
      WordAgrees(line, j, None, []);
      RawProgress(line, j);
      var end := RawEnd(line, j, None);
      var text := Word(line, j, None, []).value.text;
      SpanIsSlice(line, j, end, j, None);
      assert [] + LogicalSpan(line, j, end, None) == text;
      TokenizersAgree(line, end, words + [Token(j, end)], texts + [text]);
    }
  }

  // ---------------------------------------------------------------------
  // Inserted completions
  // ---------------------------------------------------------------------

  predicate NeedsQuoting(value: seq<Byte>) {
    value == [] || exists b :: b in value && (IsSpace(b) || IsQuote(b) || b == BACKSLASH)
  }

  /** What completion inserts for a value: wrapped in double quotes when needed, never escaped. */
  function Inserted(value: seq<Byte>): seq<Byte> {
    if NeedsQuoting(value) then [DQUOTE] + value + [DQUOTE] else value
  }

  /** Unquoting only ever drops bytes; a word that drops none has no quoting in it. */
  lemma {:induction false} WordDrops(s: seq<Byte>, i: nat, quote: Option<Byte>, acc: seq<Byte>)
    requires i <= |s| && Word(s, i, quote, acc).Ok?
    ensures var w := Word(s, i, quote, acc).value;
            && |w.text| <= |acc| + (w.end - i)
            && (quote.Some? ==> |w.text| < |acc| + (w.end - i))
            && (|w.text| == |acc| + (w.end - i) ==> forall k | i <= k < w.end :: !IsQuote(s[k]) && s[k] != BACKSLASH)
    decreases |s| - i
  {
    if i < |s| {
      if quote == Some(s[i]) {
        WordDrops(s, i + 1, None, acc);
      } else if s[i] == BACKSLASH {
        WordDrops(s, i + 2, quote, acc + [s[i + 1]]);
      } else if quote.None? && IsQuote(s[i]) {
        WordDrops(s, i + 1, Some(s[i]), acc);
      } else if quote.None? && IsSpace(s[i]) {
      } else {
        WordDrops(s, i + 1, quote, acc + [s[i]]);
      }
    }
  }

  predicate IsPlain(text: seq<Byte>) {
    forall b <- text :: !IsSpace(b) && !IsQuote(b) && b != BACKSLASH
  }

  predicate NeedsNoEscape(value: seq<Byte>) {
    DQUOTE !in value && BACKSLASH !in value
  }

  /** A word may end at `e`: the line does, or a blank follows. */
  predicate EndsAt(s: seq<Byte>, e: nat) {
    e == |s| || (e < |s| && IsSpace(s[e]))
  }

  /** Inside the inserted double quotes, the value reads back as itself iff the rest of it is free of `"` and `\`. */
  lemma {:induction false} QuotedRun(s: seq<Byte>, at: nat, value: seq<Byte>, acc: seq<Byte>, i: nat)
    requires i <= |value| && at + |value| < |s| && s[at..at + |value|] == value && s[at + |value|] == DQUOTE
    requires EndsAt(s, at + |value| + 1)
    ensures Word(s, at + i, Some(DQUOTE), acc + value[..i]) == Ok(Scanned(acc + value, at + |value| + 1))
            <==> NeedsNoEscape(value[i..])
    decreases |value| - i
  {
    var e := at + |value| + 1;
    if i == |value| {
      assert value[..i] == value && value[i..] == [];
      assert Word(s, e, None, acc + value) == Ok(Scanned(acc + value, e));
    } else {
      assert s[at + i] == value[i];
      assert acc + value[..i] + [value[i]] == acc + value[..i + 1];
      assert value[i..] == [value[i]] + value[i + 1..];
      if value[i] == DQUOTE || value[i] == BACKSLASH {
        QuotedBreak(s, at + i, acc + value[..i], acc + value, e);
      } else {
        QuotedRun(s, at, value, acc, i + 1);
      }
    }
  }

  /** A quote or backslash inside the quotes drops a byte, so the word cannot read back whole. */
  lemma QuotedBreak(s: seq<Byte>, i: nat, acc: seq<Byte>, text: seq<Byte>, e: nat)
    requires i + 1 < e <= |s| && (s[i] == DQUOTE || s[i] == BACKSLASH) && s[e - 1] == DQUOTE
    requires |text| == |acc| + (e - 1 - i)
    ensures Word(s, i, Some(DQUOTE), acc) != Ok(Scanned(text, e))
  {
    if Word(s, i, Some(DQUOTE), acc) == Ok(Scanned(text, e)) {
      if s[i] == DQUOTE {
        WordDrops(s, i + 1, None, acc);
      } else {
        WordDrops(s, i + 2, Some(DQUOTE), acc + [s[i + 1]]);
      }
      assert false;
    }
  }

  /** Plain bytes are read as they are. */
  lemma {:induction false} PlainRun(s: seq<Byte>, at: nat, text: seq<Byte>, acc: seq<Byte>)
    requires at + |text| <= |s| && s[at..at + |text|] == text && IsPlain(text)
    ensures Word(s, at, None, acc) == Word(s, at + |text|, None, acc + text)
    decreases |text|
  {
    if text == [] {
      assert acc + text == acc;
    } else {
      assert s[at] == text[0] && text[0] in text;
      assert s[at + 1..at + |text|] == text[1..];
      assert acc + text == (acc + [text[0]]) + text[1..];
      PlainRun(s, at + 1, text[1..], acc + [text[0]]);
    }
  }

  lemma {:induction false} TokensExtend(s: seq<Byte>, i: nat, acc: seq<seq<Byte>>)
    requires i <= |s| && Tokens(s, i, acc).Ok?
    ensures acc <= Tokens(s, i, acc).value
    ensures SkipBlanks(s, i) < |s| ==> |Tokens(s, i, acc).value| > |acc|
    decreases |s| - i
  {
    var j := SkipBlanks(s, i);
    if j < |s| {
      WordProgress(s, j);
      TokensExtend(s, Word(s, j, None, []).value.end, acc + [Word(s, j, None, []).value.text]);
    }
  }

  /** A line without outer blanks lexes to one token iff its first word spans it. */
  lemma OneWord(s: seq<Byte>, text: seq<Byte>)
    requires s != [] && !IsSpace(s[0]) && !IsSpace(s[|s| - 1])
    ensures Tokens(s, 0, []) == Ok([text]) <==> Word(s, 0, None, []) == Ok(Scanned(text, |s|))
  {
    if Word(s, 0, None, []).Ok? {
      WordProgress(s, 0);
      var w := Word(s, 0, None, []).value;
      assert [] + [w.text] == [w.text];
      if Tokens(s, w.end, [w.text]).Ok? {
        TokensExtend(s, w.end, [w.text]);
        assert w.end < |s| ==> SkipBlanks(s, w.end) < |s|;
      }
    }
  }

  /** `text` stands at `at`. */
  predicate StandsAt(s: seq<Byte>, at: nat, text: seq<Byte>) {
    at + |text| <= |s| && s[at..at + |text|] == text
  }

  lemma StandsApart(s: seq<Byte>, at: nat, a: seq<Byte>, b: seq<Byte>)
    requires StandsAt(s, at, a + b)
    ensures StandsAt(s, at, a) && StandsAt(s, at + |a|, b)
  {
    assert s[at..at + |a|] == (a + b)[..|a|];
    assert s[at + |a|..at + |a| + |b|] == (a + b)[|a|..];
  }

  lemma QuotedWord(s: seq<Byte>, at: nat, prefix: seq<Byte>, value: seq<Byte>)
    requires IsPlain(prefix) && StandsAt(s, at, prefix)
    requires var mid := at + |prefix|;
             && mid < |s| && s[mid] == DQUOTE && StandsAt(s, mid + 1, value)
             && mid + 1 + |value| < |s| && s[mid + 1 + |value|] == DQUOTE && EndsAt(s, mid + |value| + 2)
    ensures Word(s, at, None, []) == Ok(Scanned(prefix + value, at + |prefix| + |value| + 2)) <==> NeedsNoEscape(value)
  {
    PlainRun(s, at, prefix, []);
    assert [] + prefix == prefix;
    assert value[..0] == [] && prefix + [] == prefix && value[0..] == value;
    QuotedRun(s, at + |prefix| + 1, value, prefix, 0);
  }

  lemma PlainWord(s: seq<Byte>, at: nat, prefix: seq<Byte>, value: seq<Byte>)
    requires IsPlain(prefix) && StandsAt(s, at, prefix) && IsPlain(value) && StandsAt(s, at + |prefix|, value)
    requires EndsAt(s, at + |prefix| + |value|)
    ensures Word(s, at, None, []) == Ok(Scanned(prefix + value, at + |prefix| + |value|))
  {
    PlainRun(s, at, prefix, []);
    assert [] + prefix == prefix;
    PlainRun(s, at + |prefix|, value, prefix);
  }

  /** The word that completion puts into a line reads back as prefix and value iff the value has no `"` or `\`. */
  lemma InsertedWord(s: seq<Byte>, at: nat, prefix: seq<Byte>, value: seq<Byte>)
    requires IsPlain(prefix) && StandsAt(s, at, prefix) && StandsAt(s, at + |prefix|, Inserted(value))
    requires EndsAt(s, at + |prefix| + |Inserted(value)|)
    ensures Word(s, at, None, []) == Ok(Scanned(prefix + value, at + |prefix| + |Inserted(value)|))
            <==> NeedsNoEscape(value)
  {
    if NeedsQuoting(value) {
      StandsApart(s, at + |prefix|, [DQUOTE] + value, [DQUOTE]);
      StandsApart(s, at + |prefix|, [DQUOTE], value);
      assert s[at + |prefix|..at + |prefix| + 1] == [DQUOTE];
      QuotedWord(s, at, prefix, value);
    } else {
      PlainWord(s, at, prefix, value);
    }
  }

  /** What follows a word that ends inside `s` does not change it. */
  lemma {:induction false} WordIsLocal(s: seq<Byte>, rest: seq<Byte>, i: nat, quote: Option<Byte>, acc: seq<Byte>)
    requires i <= |s| && Word(s, i, quote, acc).Ok? && Word(s, i, quote, acc).value.end < |s|
    ensures Word(s + rest, i, quote, acc) == Word(s, i, quote, acc)
    decreases |s| - i
  {
    assert i < |s| ==> (s + rest)[i] == s[i];
    assert i + 1 < |s| ==> (s + rest)[i + 1] == s[i + 1];
    if quote == Some(s[i]) {
      WordIsLocal(s, rest, i + 1, None, acc);
    } else if s[i] == BACKSLASH {
      WordIsLocal(s, rest, i + 2, quote, acc + [s[i + 1]]);
    } else if quote.None? && IsQuote(s[i]) {
      WordIsLocal(s, rest, i + 1, Some(s[i]), acc);
    } else if quote.None? && IsSpace(s[i]) {
    } else {
      WordIsLocal(s, rest, i + 1, quote, acc + [s[i]]);
    }
  }

  lemma {:induction false} BlanksAreLocal(s: seq<Byte>, rest: seq<Byte>, i: nat)
    requires i <= |s|
    ensures var j := SkipBlanks(s, i);
            SkipBlanks(s + rest, i) == if j < |s| then j else SkipBlanks(s + rest, |s|)
    decreases |s| - i
  {
    if i < |s| {
      assert (s + rest)[i] == s[i];
      BlanksAreLocal(s, rest, i + 1);
    }
  }

  /** Lexing a line passes through every point where the part before it lexes and ends in a blank. */
  lemma {:induction false} TokensPassThrough(s: seq<Byte>, rest: seq<Byte>, i: nat, acc: seq<seq<Byte>>)
    requires i <= |s| && Tokens(s, i, acc).Ok? && (i == |s| || TrailingBlank(s, i, |acc|))
    ensures Tokens(s + rest, i, acc) == Tokens(s + rest, |s|, Tokens(s, i, acc).value)
    decreases |s| - i
  {
    var j := SkipBlanks(s, i);
    BlanksAreLocal(s, rest, i);
    if j == |s| {
      BlanksDoNotMatter(s + rest, i, acc);
      BlanksDoNotMatter(s + rest, |s|, acc);
    } else {
      var w := Word(s, j, None, []).value;
      WordAgrees(s, j, None, []);
      WordProgress(s, j);
      assert w.end < |s| by {
        assert TrailingBlank(s, w.end, |acc| + 1);
      }
      WordIsLocal(s, rest, j, None, []);
      WordProgress(s + rest, j);
      TokensPassThrough(s, rest, w.end, acc + [w.text]);
    }
  }

  /**
   The line that completion leaves: what stood before the replaced word, then at
   `at` the prefix and the inserted value, then a blank or the end. The tokens
   before are the same, and the next word is prefix and value exactly when the
   value holds neither `"` nor `\`: the inserted text is quoted but never escaped.
   */
  lemma InsertedInLine(line: seq<Byte>, at: nat, prefix: seq<Byte>, value: seq<Byte>, texts: seq<seq<Byte>>)
    requires IsPlain(prefix) && StandsAt(line, at, prefix) && StandsAt(line, at + |prefix|, Inserted(value))
    requires EndsAt(line, at + |prefix| + |Inserted(value)|)
    requires Tokens(line[..at], 0, []) == Ok(texts) && |texts| < MAX_TOKENS
    requires at == 0 || TrailingBlank(line[..at], 0, 0)
    ensures PassesThrough(line, at, texts)
    ensures ReadsNext(line, at, texts, prefix + value, at + |prefix| + |Inserted(value)|) <==> NeedsNoEscape(value)
  {
    PassesBefore(line, at, texts);
    FirstByte(line, at, prefix, value);
    InsertedReads(line, at, texts, prefix, value);
  }

  /** Lexing the line arrives at `i` with the tokens `texts`. */
  ghost predicate PassesThrough(s: seq<Byte>, i: nat, texts: seq<seq<Byte>>) {
    i <= |s| && Tokens(s, 0, []) == Tokens(s, i, texts)
  }

  /** The next word from `i` is `text`, it ends at `e`, and lexing goes on from there with one token more. */
  ghost predicate ReadsNext(s: seq<Byte>, i: nat, acc: seq<seq<Byte>>, text: seq<Byte>, e: nat) {
    && i <= e <= |s| && Word(s, i, None, []) == Ok(Scanned(text, e))
    && Tokens(s, i, acc) == Tokens(s, e, acc + [text])
  }

  lemma InsertedReads(s: seq<Byte>, at: nat, acc: seq<seq<Byte>>, prefix: seq<Byte>, value: seq<Byte>)
    requires IsPlain(prefix) && StandsAt(s, at, prefix) && StandsAt(s, at + |prefix|, Inserted(value))
    requires EndsAt(s, at + |prefix| + |Inserted(value)|) && at < |s| && !IsSpace(s[at]) && |acc| < MAX_TOKENS
    ensures ReadsNext(s, at, acc, prefix + value, at + |prefix| + |Inserted(value)|) <==> NeedsNoEscape(value)
  {
    InsertedWord(s, at, prefix, value);
    if NeedsNoEscape(value) {
      OneStep(s, at, acc, Scanned(prefix + value, at + |prefix| + |Inserted(value)|));
    }
  }

  lemma PassesBefore(line: seq<Byte>, at: nat, texts: seq<seq<Byte>>)
    requires at <= |line| && Tokens(line[..at], 0, []) == Ok(texts) && (at == 0 || TrailingBlank(line[..at], 0, 0))
    ensures PassesThrough(line, at, texts)
  {
    assert line == line[..at] + line[at..];
    TokensPassThrough(line[..at], line[at..], 0, []);
  }

  /** Lexing on from a word. */
  lemma OneStep(s: seq<Byte>, i: nat, acc: seq<seq<Byte>>, w: Scanned)
    requires i < |s| && !IsSpace(s[i]) && Word(s, i, None, []) == Ok(w) && |acc| < MAX_TOKENS
    ensures i < w.end <= |s| && Tokens(s, i, acc) == Tokens(s, w.end, acc + [w.text])
  {
    WordProgress(s, i);
  }

  lemma FirstByte(s: seq<Byte>, at: nat, prefix: seq<Byte>, value: seq<Byte>)
    requires IsPlain(prefix) && StandsAt(s, at, prefix) && StandsAt(s, at + |prefix|, Inserted(value))
    ensures at < |s| && !IsSpace(s[at])
  {
    if prefix != [] {
      assert s[at] == prefix[0] && prefix[0] in prefix;
    } else {
      assert s[at] == Inserted(value)[0];
      assert NeedsQuoting(value) || value[0] in value;
    }
  }

  /**
   An inserted completion alone lexes back to the value exactly when the value
   holds neither `"` nor `\`.
   */
  lemma InsertedRoundTrip(value: seq<Byte>)
    ensures Tokens(Inserted(value), 0, []) == Ok([value]) <==> NeedsNoEscape(value)
  {
    var s := Inserted(value);
    assert [] + value == value;
    assert s[0..|s|] == s;
    InsertedWord(s, 0, [], value);
    if !NeedsQuoting(value) {
      assert value[0] in value && value[|value| - 1] in value;
    }
    OneWord(s, value);
  }

  // ---------------------------------------------------------------------
  // The grammar: lines put together from words, written in byte values
  // ---------------------------------------------------------------------

  /** A word as it is spelt: bytes standing for themselves, bytes behind a backslash, and quotes. */
  datatype Spelling =
    | Done
    | Bare(b: Byte, rest: Spelling)
    | Escaped(b: Byte, rest: Spelling)
    | Mark(q: Byte, rest: Spelling)

  /** A line: blanks and then a word, and so on; at the end, blanks. */
  datatype Line = Blank(blanks: seq<Byte>) | Words(blanks: seq<Byte>, word: Spelling, rest: Line)

  predicate BlankByte(b: Byte) {
    b == 32 || b == 9 || b == 13 || b == 10
  }

  predicate Blanks(bs: seq<Byte>) {
    forall i | 0 <= i < |bs| :: BlankByte(bs[i])
  }

  /**
   A quote opened by a mark is closed by the same mark. Outside quotes, blanks, quotes and
   backslashes stand behind a backslash; inside, only the closing quote and backslashes do.
   */
  predicate SpellingOk(w: Spelling, quote: Option<Byte>) {
    match w
    case Done => quote.None?
    case Bare(b, rest) =>
      && b != 92 && (quote.None? ==> !BlankByte(b) && b != 34 && b != 39) && quote != Some(b)
      && SpellingOk(rest, quote)
    case Escaped(_, rest) => SpellingOk(rest, quote)
    case Mark(q, rest) =>
      && (q == 34 || q == 39)
      && if quote.None? then SpellingOk(rest, Some(q)) else quote == Some(q) && SpellingOk(rest, None)
  }

  /** Words are separated by blanks. */
  predicate LineOk(line: Line, first: bool) {
    match line
    case Blank(blanks) => Blanks(blanks)
    case Words(blanks, word, rest) =>
      && Blanks(blanks) && (first || blanks != [])
      && SpellingOk(word, None) && word != Done && LineOk(rest, false)
  }

  function WordBytes(w: Spelling): seq<Byte> {
    match w
    case Done => []
    case Bare(b, rest) => [b] + WordBytes(rest)
    case Escaped(b, rest) => [92] + ([b] + WordBytes(rest))
    case Mark(q, rest) => [q] + WordBytes(rest)
  }

  function WordText(w: Spelling): seq<Byte> {
    match w
    case Done => []
    case Bare(b, rest) => [b] + WordText(rest)
    case Escaped(b, rest) => [b] + WordText(rest)
    case Mark(_, rest) => WordText(rest)
  }

  function LineBytes(line: Line): seq<Byte> {
    match line
    case Blank(blanks) => blanks
    case Words(blanks, word, rest) => blanks + (WordBytes(word) + LineBytes(rest))
  }

  function LineTexts(line: Line): seq<seq<Byte>> {
    match line
    case Blank(_) => []
    case Words(_, word, rest) => [WordText(word)] + LineTexts(rest)
  }

  lemma HeadStands(s: seq<Byte>, at: nat, b: Byte, tail: seq<Byte>)
    requires StandsAt(s, at, [b] + tail)
    ensures at < |s| && s[at] == b && StandsAt(s, at + 1, tail)
  {
    StandsApart(s, at, [b], tail);
    assert s[at] == s[at..at + 1][0];
  }

  lemma Associate(a: seq<Byte>, b: Byte, c: seq<Byte>)
    ensures a + ([b] + c) == (a + [b]) + c
  {
  }

  /** A word that a blank or the end follows reads as its text. */
  lemma {:induction false} WordRun(s: seq<Byte>, at: nat, w: Spelling, quote: Option<Byte>, acc: seq<Byte>)
    requires SpellingOk(w, quote) && quote != Some(92)
    requires StandsAt(s, at, WordBytes(w)) && EndsAt(s, at + |WordBytes(w)|)
    ensures Word(s, at, quote, acc) == Ok(Scanned(acc + WordText(w), at + |WordBytes(w)|))
    decreases w
  {
    match w
    case Done =>
      assert acc + WordText(w) == acc;
    case Bare(b, rest) =>
      HeadStands(s, at, b, WordBytes(rest));
      WordRun(s, at + 1, rest, quote, acc + [b]);
      Associate(acc, b, WordText(rest));
    case Escaped(b, rest) =>
      HeadStands(s, at, 92, [b] + WordBytes(rest));
      HeadStands(s, at + 1, b, WordBytes(rest));
      WordRun(s, at + 2, rest, quote, acc + [b]);
      Associate(acc, b, WordText(rest));
    case Mark(q, rest) =>
      HeadStands(s, at, q, WordBytes(rest));
      WordRun(s, at + 1, rest, if quote.None? then Some(q) else None, acc);
  }

  lemma WordReads(s: seq<Byte>, at: nat, w: Spelling)
    requires SpellingOk(w, None) && StandsAt(s, at, WordBytes(w)) && EndsAt(s, at + |WordBytes(w)|)
    ensures Word(s, at, None, []) == Ok(Scanned(WordText(w), at + |WordBytes(w)|))
  {
    WordRun(s, at, w, None, []);
    assert [] + WordText(w) == WordText(w);
  }

  lemma {:induction false} BlanksSkipped(s: seq<Byte>, at: nat, bs: seq<Byte>)
    requires Blanks(bs) && StandsAt(s, at, bs)
    ensures SkipBlanks(s, at) == SkipBlanks(s, at + |bs|)
    decreases |bs|
  {
    if bs != [] {
      assert s[at] == bs[0];
      assert s[at + 1..at + |bs|] == bs[1..];
      BlanksSkipped(s, at + 1, bs[1..]);
    }
  }

  /** From `at` to its end, `s` is the line. */
  predicate Remains(s: seq<Byte>, at: nat, line: Line) {
    StandsAt(s, at, LineBytes(line)) && at + |LineBytes(line)| == |s|
  }

  /** After a word comes a blank or the end. */
  lemma WordEnds(s: seq<Byte>, at: nat, line: Line)
    requires Remains(s, at, line) && LineOk(line, false)
    ensures EndsAt(s, at)
  {
    if at < |s| {
      assert s[at] == s[at..at + |LineBytes(line)|][0];
      assert s[at] == line.blanks[0];
    }
  }

  lemma LineApart(s: seq<Byte>, at: nat, line: Line)
    requires Remains(s, at, line) && line.Words?
    ensures var mid := at + |line.blanks|;
            && StandsAt(s, at, line.blanks) && StandsAt(s, mid, WordBytes(line.word))
            && Remains(s, mid + |WordBytes(line.word)|, line.rest)
  {
    StandsApart(s, at, line.blanks, WordBytes(line.word) + LineBytes(line.rest));
    StandsApart(s, at + |line.blanks|, WordBytes(line.word), LineBytes(line.rest));
  }

  /** A word starts with no blank. */
  lemma WordStarts(s: seq<Byte>, at: nat, w: Spelling)
    requires SpellingOk(w, None) && w != Done && StandsAt(s, at, WordBytes(w))
    ensures at < |s| && |WordBytes(w)| > 0 && !IsSpace(s[at])
  {
    assert s[at] == s[at..at + |WordBytes(w)|][0];
  }

  /** The first word of a line: where it starts, what it says and what remains. */
  lemma FirstWord(s: seq<Byte>, at: nat, line: Line, first: bool)
    requires Remains(s, at, line) && LineOk(line, first) && line.Words?
    ensures var mid := at + |line.blanks|;
            var end := mid + |WordBytes(line.word)|;
            && mid < end <= |s| && SkipBlanks(s, at) == mid
            && Word(s, mid, None, []) == Ok(Scanned(WordText(line.word), end))
            && Remains(s, end, line.rest)
  {
    var mid := at + |line.blanks|;
    LineApart(s, at, line);
    BlanksSkipped(s, at, line.blanks);
    WordStarts(s, mid, line.word);
    WordEnds(s, mid + |WordBytes(line.word)|, line.rest);
    WordReads(s, mid, line.word);
  }

  /** Lexing on over blanks and a word. */
  lemma NextToken(s: seq<Byte>, i: nat, w: Scanned, acc: seq<seq<Byte>>)
    requires i <= |s| && SkipBlanks(s, i) < |s| && Word(s, SkipBlanks(s, i), None, []) == Ok(w)
    ensures i < w.end <= |s|
    ensures Tokens(s, i, acc) == if |acc| < MAX_TOKENS then Tokens(s, w.end, acc + [w.text]) else Err(TooManyTokens)
  {
    WordProgress(s, SkipBlanks(s, i));
  }

  lemma NoToken(s: seq<Byte>, i: nat, blanks: seq<Byte>, acc: seq<seq<Byte>>)
    requires Blanks(blanks) && StandsAt(s, i, blanks) && i + |blanks| == |s|
    ensures Tokens(s, i, acc) == Ok(acc)
  {
    BlanksSkipped(s, i, blanks);
  }

  lemma TextsFollow(acc: seq<seq<Byte>>, line: Line)
    requires line.Words?
    ensures acc + LineTexts(line) == (acc + [WordText(line.word)]) + LineTexts(line.rest)
    ensures |LineTexts(line)| == 1 + |LineTexts(line.rest)|
  {
  }

  lemma {:induction false} LineReads(s: seq<Byte>, at: nat, line: Line, first: bool, acc: seq<seq<Byte>>)
    requires Remains(s, at, line) && LineOk(line, first) && |acc| <= 32
    ensures Tokens(s, at, acc) ==
            if |acc| + |LineTexts(line)| <= 32 then Ok(acc + LineTexts(line)) else Err(TooManyTokens)
    decreases line
  {
    match line
    case Blank(blanks) =>
      NoToken(s, at, blanks, acc);
      assert acc + [] == acc;
    case Words(blanks, word, rest) =>
      FirstWord(s, at, line, first);
      NextToken(s, at, Scanned(WordText(word), at + |blanks| + |WordBytes(word)|), acc);
      if |acc| < 32 {
        LineReads(s, at + |blanks| + |WordBytes(word)|, rest, false, acc + [WordText(word)]);
        TextsFollow(acc, line);
      }
  }

  /**
   Every line of the grammar lexes to the texts of its words: blanks (32, 9, 13, 10) separate,
   either quote (34, 39) holds everything up to the next of its kind together, a backslash (92)
   takes the next byte as it is, and more than 32 words are refused.
   */
  lemma GrammarReads(line: Line)
    requires LineOk(line, true)
    ensures Tokens(LineBytes(line), 0, []) ==
            if |LineTexts(line)| <= 32 then Ok(LineTexts(line)) else Err(TooManyTokens)
  {
    var s := LineBytes(line);
    assert s[0..|s|] == s;
    LineReads(s, 0, line, true, []);
    assert [] + LineTexts(line) == LineTexts(line);
  }
}
