/**
 Line framing of the IRC byte stream (bridge-client/proxy/irc-proxy.js, the
 socket's data handler): messages end in CR-LF and blank ones are dropped, as
 section 2.3.1 of RFC 2812 has it. Chunks are already decoded characters.
 */
module IrcFraming {
  const CRLF: string := "\r\n"

  ghost predicate NoCrlf(s: string) {
    forall i | 0 <= i < |s| - 1 :: !(s[i] == '\r' && s[i + 1] == '\n')
  }

  ghost function Join(lines: seq<string>, tail: string): string {
    if lines == [] then tail else lines[0] + CRLF + Join(lines[1..], tail)
  }

  /** The stream is these CR-LF-terminated lines followed by this unterminated tail. */
  ghost predicate IsFraming(stream: string, lines: seq<string>, tail: string) {
    && stream == Join(lines, tail)
    && (forall i | 0 <= i < |lines| :: NoCrlf(lines[i]))
    && NoCrlf(tail)
  }

  // ------------------------------------------------------------------ one framing per stream

  lemma JoinStartsWithLine(lines: seq<string>, tail: string)
    requires lines != []
    ensures |Join(lines, tail)| >= |lines[0]| + 2
    ensures Join(lines, tail)[..|lines[0]|] == lines[0]
    ensures Join(lines, tail)[|lines[0]|] == '\r' && Join(lines, tail)[|lines[0]| + 1] == '\n'
    ensures Join(lines, tail)[|lines[0]| + 2..] == Join(lines[1..], tail)
  {
  }

  /** The first CR-LF of a joined stream is the one that ends the first line. */
  lemma FirstCrlf(line: string, rest: string, i: nat)
    requires NoCrlf(line) && i < |line|
    ensures !((line + CRLF + rest)[i] == '\r' && (line + CRLF + rest)[i + 1] == '\n')
  {
  }

  lemma {:induction false} FramingUnique(stream: string, lines: seq<string>, tail: string, lines': seq<string>, tail': string)
    requires IsFraming(stream, lines, tail) && IsFraming(stream, lines', tail')
    ensures lines == lines' && tail == tail'
    decreases |lines|
  {
    if lines == [] && lines' == [] {
    } else if lines == [] {
      JoinStartsWithLine(lines', tail');
    } else if lines' == [] {
      JoinStartsWithLine(lines, tail);
    } else {
      JoinStartsWithLine(lines, tail);
      JoinStartsWithLine(lines', tail');
      var rest, rest' := Join(lines[1..], tail), Join(lines'[1..], tail');
      if |lines[0]| < |lines'[0]| {
        FirstCrlf(lines'[0], rest', |lines[0]|);
      } else if |lines'[0]| < |lines[0]| {
        FirstCrlf(lines[0], rest, |lines'[0]|);
      }
      FramingUnique(rest, lines[1..], tail, lines'[1..], tail');
    }
  }

  lemma {:induction false} JoinAppend(a: seq<string>, b: seq<string>, tail: string)
    ensures Join(a + b, tail) == Join(a, Join(b, tail))
    decreases |a|
  {
    if a == [] {
      assert a + b == b;
    } else {
      assert (a + b)[1..] == a[1..] + b;
      JoinAppend(a[1..], b, tail);
    }
  }

  lemma {:induction false} JoinTail(lines: seq<string>, tail: string, more: string)
    ensures Join(lines, tail) + more == Join(lines, tail + more)
    decreases |lines|
  {
    if lines != [] {
      JoinTail(lines[1..], tail, more);
    }
  }

  /** Framing what was carried over together with the next chunk continues the framing of the whole stream. */
  lemma FramingExtends(stream: string, lines: seq<string>, tail: string, chunk: string, lines': seq<string>, tail': string)
    requires IsFraming(stream, lines, tail) && IsFraming(tail + chunk, lines', tail')
    ensures IsFraming(stream + chunk, lines + lines', tail')
  {
    JoinTail(lines, tail, chunk);
    JoinAppend(lines, lines', tail');
  }

  // ------------------------------------------------------------------ splitting

  /** The parts but the last are the stream's lines, the last its tail. */
  ghost predicate IsSplit(s: string, parts: seq<string>) {
    |parts| > 0 && IsFraming(s, parts[..|parts| - 1], parts[|parts| - 1])
  }

  lemma ShortSplit(s: string)
    requires |s| < 2
    ensures IsSplit(s, [s])
  {
    assert [s][..0] == [];
  }

  /** Splitting at every CR-LF; the last part is what follows the last one. */
  function Split(s: string): (parts: seq<string>)
    ensures IsSplit(s, parts)
  {
    if |s| < 2 then
      ShortSplit(s);
      [s]
    else if s[0] == '\r' && s[1] == '\n' then
      var rest := Split(s[2..]);
      SplitStep(s, s[2..], "", rest);
      [""] + rest
    else
      var rest := Split(s[1..]);
      SplitGrow(s, rest);
      [[s[0]] + rest[0]] + rest[1..]
  }

  lemma SplitStep(s: string, rest: string, line: string, parts: seq<string>)
    requires s == line + CRLF + rest && NoCrlf(line) && IsSplit(rest, parts)
    ensures IsSplit(s, [line] + parts)
  {
    assert ([line] + parts)[..|parts|] == [line] + parts[..|parts| - 1];
    assert ([line] + parts[..|parts| - 1])[1..] == parts[..|parts| - 1];
  }

  /** Putting a character in front of the first part is safe when it does not complete a CR-LF. */
  lemma SplitGrow(s: string, parts: seq<string>)
    requires |s| >= 2 && !(s[0] == '\r' && s[1] == '\n') && IsSplit(s[1..], parts)
    ensures IsSplit(s, [[s[0]] + parts[0]] + parts[1..])
  {
    var grown := [[s[0]] + parts[0]] + parts[1..];
    var head := [s[0]] + parts[0];
    assert NoCrlf(head) by {
      if |parts| > 1 {
        JoinStartsWithLine(parts[..|parts| - 1], parts[|parts| - 1]);
      }
      if parts[0] != "" {
        assert parts[0][0] == s[1];
      }
    }
    if |parts| > 1 {
      assert grown[..|grown| - 1] == [head] + parts[..|parts| - 1][1..];
      assert grown[..|grown| - 1][1..] == parts[..|parts| - 1][1..];
      JoinStartsWithLine(parts[..|parts| - 1], parts[|parts| - 1]);
      assert s == [s[0]] + s[1..];
    }
  }

  function Lines(stream: string): seq<string> {
    var parts := Split(stream); parts[..|parts| - 1]
  }

  function Tail(stream: string): string {
    var parts := Split(stream); parts[|parts| - 1]
  }

  // ------------------------------------------------------------------ blank lines

  /** What String.prototype.trim removes. */
  predicate IsWhite(c: char) {
    c in {'\t', '\n', '\U{000B}', '\U{000C}', '\r', ' ', '\U{00A0}', '\U{1680}', '\U{2028}', '\U{2029}', '\U{202F}',
          '\U{205F}', '\U{3000}', '\U{FEFF}'}
    || '\U{2000}' <= c <= '\U{200A}'
  }

  predicate IsBlank(line: string) {
    forall i | 0 <= i < |line| :: IsWhite(line[i])
  }

  function NonBlank(lines: seq<string>): seq<string> {
    if lines == [] then []
    else NonBlank(lines[..|lines| - 1]) + (if IsBlank(lines[|lines| - 1]) then [] else [lines[|lines| - 1]])
  }

  /** White space by code point: the five controls from tab to carriage return, the space separators, the two line ends and the byte-order mark. */
  lemma WhiteByCode(c: char)
    ensures var u := c as int;
            IsWhite(c) <==> 9 <= u <= 13 || u == 0x20 || u == 0xA0 || u == 0x1680 || 0x2000 <= u <= 0x200A
                            || u == 0x2028 || u == 0x2029 || u == 0x202F || u == 0x205F || u == 0x3000 || u == 0xFEFF
  {
  }

  /** A line is kept exactly when some character of it is not white space; with NonBlankAppend this fixes what is kept of any list. */
  lemma LineIsKeptIff(line: string)
    ensures NonBlank([line]) == if exists i :: 0 <= i < |line| && !IsWhite(line[i]) then [line] else []
  {
    assert [line][..0] == [];
  }

  lemma {:induction false} NonBlankAppend(a: seq<string>, b: seq<string>)
    ensures NonBlank(a + b) == NonBlank(a) + NonBlank(b)
    decreases |b|
  {
    if b == [] {
      assert a + b == a;
    } else {
      assert (a + b)[..|a + b| - 1] == a + b[..|b| - 1];
      NonBlankAppend(a, b[..|b| - 1]);
    }
  }

  // ------------------------------------------------------------------ any chunking

  /** Lines handed on and text carried over after feeding the chunks one by one to the handler. */
  function Feed(chunks: seq<string>): (r: (seq<string>, string)) {
    if chunks == [] then ([], "")
    else
      var (sent, buffer) := Feed(chunks[..|chunks| - 1]);
      var text := buffer + chunks[|chunks| - 1];
      (sent + NonBlank(Lines(text)), Tail(text))
  }

  function Concat(chunks: seq<string>): string {
    if chunks == [] then "" else Concat(chunks[..|chunks| - 1]) + chunks[|chunks| - 1]
  }

  /** One handler call carries the framing of the stream so far to the framing of the longer stream. */
  lemma OneChunk(stream: string, chunk: string)
    ensures Lines(stream + chunk) == Lines(stream) + Lines(Tail(stream) + chunk)
    ensures Tail(stream + chunk) == Tail(Tail(stream) + chunk)
    ensures NonBlank(Lines(stream + chunk)) == NonBlank(Lines(stream)) + NonBlank(Lines(Tail(stream) + chunk))
  {
    var text := Tail(stream) + chunk;
    FramingExtends(stream, Lines(stream), Tail(stream), chunk, Lines(text), Tail(text));
    FramingUnique(stream + chunk, Lines(stream + chunk), Tail(stream + chunk), Lines(stream) + Lines(text), Tail(text));
    NonBlankAppend(Lines(stream), Lines(text));
  }

  /** However the stream is cut, between CR and LF too, the same lines come out and the same tail is kept. */
  lemma {:induction false} ChunkingIsIrrelevant(chunks: seq<string>)
    ensures Feed(chunks) == (NonBlank(Lines(Concat(chunks))), Tail(Concat(chunks)))
    decreases |chunks|
  {
    if chunks != [] {
      ChunkingIsIrrelevant(chunks[..|chunks| - 1]);
      OneChunk(Concat(chunks[..|chunks| - 1]), chunks[|chunks| - 1]);
    }
  }
}
