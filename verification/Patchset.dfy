/** The unified-diff subset of utils/check-style.py: patches, chunks and typed lines, the printer
    (`write`) and the parser (`parse_patchset`). */
module Patchset {

  datatype Kind = Unset | Src | Dst | Both

  datatype Line = Line(kind: Kind, text: string)

  datatype Chunk = Chunk(srcPos: int, dstPos: int, lines: seq<Line>)

  datatype Patch = Patch(src: string, dst: string, chunks: seq<Chunk>)

  /** `Failed` stands for any exception. */
  datatype Result<+T> = Failed | Ok(value: T) {
    predicate IsFailure() { Failed? }
    function PropagateFailure<U>(): Result<U> requires Failed? { Failed }
    function Extract(): T requires Ok? { value }
  }

  // ---------------------------------------------------------------- decimal numbers

  predicate IsDigit(c: char) {
    '0' <= c <= '9'
  }

  function Digit(d: nat): (c: char)
    requires d < 10
    ensures IsDigit(c) && c as int - '0' as int == d
  {
    ('0' as int + d) as char
  }

  function Decimal(n: nat): (s: string)
    ensures s != [] && forall i :: 0 <= i < |s| ==> IsDigit(s[i])
  {
    if n < 10 then [Digit(n)] else Decimal(n / 10) + [Digit(n % 10)]
  }

  function FormatInt(i: int): string {
    if i < 0 then "-" + Decimal(-i) else Decimal(i)
  }

  function ParseNat(s: string): nat
    requires forall i :: 0 <= i < |s| ==> IsDigit(s[i])
  {
    if s == [] then 0
    else
      assert IsDigit(s[|s| - 1]);
      ParseNat(s[..|s| - 1]) * 10 + (s[|s| - 1] as int - '0' as int)
  }

  lemma {:induction false} DecimalRoundTrip(n: nat)
    ensures ParseNat(Decimal(n)) == n
  {
    if n < 10 {
      assert [Digit(n)][..0] == [];
    } else {
      DecimalRoundTrip(n / 10);
      assert Decimal(n)[..|Decimal(n)| - 1] == Decimal(n / 10);
    }
  }

  /** The longest prefix of digits. */
  function Digits(s: string): (d: string)
    ensures d <= s && forall i :: 0 <= i < |d| ==> IsDigit(d[i])
    ensures |d| < |s| ==> !IsDigit(s[|d|])
  {
    if s == [] || !IsDigit(s[0]) then [] else [s[0]] + Digits(s[1..])
  }

  lemma {:induction false} DigitsOf(d: string, rest: string)
    requires forall i :: 0 <= i < |d| ==> IsDigit(d[i])
    requires rest == [] || !IsDigit(rest[0])
    ensures Digits(d + rest) == d && (d + rest)[|d|..] == rest
  {
    if d == [] {
      assert d + rest == rest;
    } else {
      assert (d + rest)[1..] == d[1..] + rest;
      DigitsOf(d[1..], rest);
    }
  }

  // ---------------------------------------------------------------- the printer, line by line

  function SrcLen(lines: seq<Line>): nat {
    if lines == [] then 0 else SrcLen(lines[1..]) + if lines[0].kind.Src? || lines[0].kind.Both? then 1 else 0
  }

  function DstLen(lines: seq<Line>): nat {
    if lines == [] then 0 else DstLen(lines[1..]) + if lines[0].kind.Dst? || lines[0].kind.Both? then 1 else 0
  }

  function Header(c: Chunk): string {
    "@@ -" + (FormatInt(c.srcPos) + ("," + (Decimal(SrcLen(c.lines))
    + (" +" + (FormatInt(c.dstPos) + ("," + (Decimal(DstLen(c.lines)) + " @@")))))))
  }

  /** A line that was never typed cannot be written. */
  function PrintLine(l: Line): string
    requires !l.kind.Unset?
  {
    match l.kind
    case Src => "-" + l.text
    case Dst => "+" + l.text
    case Both => " " + l.text
  }

  function PrintLines(lines: seq<Line>): Result<seq<string>> {
    if lines == [] then Ok([])
    else if lines[0].kind.Unset? then Failed
    else match PrintLines(lines[1..])
      case Failed => Failed
      case Ok(rest) => Ok([PrintLine(lines[0])] + rest)
  }

  function PrintChunks(chunks: seq<Chunk>): Result<seq<string>> {
    if chunks == [] then Ok([])
    else match PrintLines(chunks[0].lines)
      case Failed => Failed
      case Ok(body) =>
        match PrintChunks(chunks[1..])
        case Failed => Failed
        case Ok(rest) => Ok([Header(chunks[0])] + body + rest)
  }

  function PrintPatches(ps: seq<Patch>): Result<seq<string>> {
    if ps == [] then Ok([])
    else match PrintChunks(ps[0].chunks)
      case Failed => Failed
      case Ok(body) =>
        match PrintPatches(ps[1..])
        case Failed => Failed
        case Ok(rest) => Ok(["--- " + ps[0].src, "+++ " + ps[0].dst] + body + rest)
  }

  // ---------------------------------------------------------------- text and lines

  /** What ends up in the file: every line with a newline behind it. */
  function Text(lines: seq<string>): string {
    if lines == [] then "" else lines[0] + "\n" + Text(lines[1..])
  }

  function LineEnd(text: string): (n: nat)
    ensures n <= |text| && '\n' !in text[..n]
    ensures n < |text| ==> text[n] == '\n'
  {
    if text == "" || text[0] == '\n' then 0
    else
      assert forall n: nat :: n < |text| ==> text[..n + 1] == [text[0]] + text[1..][..n];
      1 + LineEnd(text[1..])
  }

  /** Reading the file line by line, without the newlines. */
  function ReadLines(text: string): (lines: seq<string>)
    ensures forall i :: 0 <= i < |lines| ==> '\n' !in lines[i]
    decreases |text|
  {
    if text == "" then []
    else
      var n := LineEnd(text);
      if n == |text| then [text[..n]] else [text[..n]] + ReadLines(text[n + 1..])
  }

  lemma {:induction false} FirstNewline(first: string, rest: string)
    requires '\n' !in first
    ensures LineEnd(first + "\n" + rest) == |first|
  {
    if first != "" {
      assert (first + "\n" + rest)[1..] == first[1..] + "\n" + rest;
      FirstNewline(first[1..], rest);
    }
  }

  lemma {:induction false} ReadsWhatWasWritten(lines: seq<string>)
    requires forall i :: 0 <= i < |lines| ==> '\n' !in lines[i]
    ensures ReadLines(Text(lines)) == lines
  {
    if lines != [] {
      var text, n, rest := Text(lines), |lines[0]|, Text(lines[1..]);
      assert text == lines[0] + "\n" + rest;
      FirstNewline(lines[0], rest);
      assert text[..n] == lines[0] && text[n + 1..] == rest;
      ReadsWhatWasWritten(lines[1..]);
    }
  }

  // ---------------------------------------------------------------- the parser

  /** The patches so far; the current chunk is the last one of patch `chunkIn`, or missing. A new patch
      does not reset it. */
  datatype Parser = Parser(patches: seq<Patch>, chunkIn: int)

  ghost predicate Valid(p: Parser) {
    -1 <= p.chunkIn < |p.patches| && (p.chunkIn >= 0 ==> p.patches[p.chunkIn].chunks != [])
  }

  function Expect(prefix: string, s: string): Result<string> {
    if prefix <= s then Ok(s[|prefix|..]) else Failed
  }

  /** One or more digits, and what follows them. */
  function Number(s: string): Result<(nat, string)> {
    var d := Digits(s);
    if d == [] then Failed else Ok((ParseNat(d), s[|d|..]))
  }

  /** `^@@ -([0-9]+),([0-9]+) \\+([0-9]+),([0-9]+) @@`, keeping the first and the third number. */
  function ParseHeader(line: string): Result<(nat, nat)> {
    var r1 :- Expect("@@ -", line);
    var (src, r2) :- Number(r1);
    var r3 :- Expect(",", r2);
    var (_, r4) :- Number(r3);
    var r5 :- Expect(" +", r4);
    var (dst, r6) :- Number(r5);
    var r7 :- Expect(",", r6);
    var (_, r8) :- Number(r7);
    var _ :- Expect(" @@", r8);
    Ok((src, dst))
  }

  function AddLine(p: Parser, l: Line): Result<Parser>
    requires Valid(p)
  {
    if p.chunkIn < 0 then Failed
    else
      var patch := p.patches[p.chunkIn];
      var n := |patch.chunks| - 1;
      var chunk := patch.chunks[n].(lines := patch.chunks[n].lines + [l]);
      Ok(p.(patches := p.patches[p.chunkIn := patch.(chunks := patch.chunks[n := chunk])]))
  }

  /** Which of the regular expressions, tried in the order of the loop, a line matches. */
  datatype Token = SrcName(name: string) | DstName(name: string) | Start(srcPos: nat, dstPos: nat) | Body(line: Line) | Garbage

  function Classify(line: string): Token {
    if "--- " <= line then SrcName(line[4..])
    else if "+++ " <= line then DstName(line[4..])
    else if ParseHeader(line).Ok? then Start(ParseHeader(line).value.0, ParseHeader(line).value.1)
    else if "-" <= line then Body(Line(Src, line[1..]))
    else if "+" <= line then Body(Line(Dst, line[1..]))
    else if " " <= line then Body(Line(Both, line[1..]))
    else Garbage
  }

  function Consume(p: Parser, t: Token): (r: Result<Parser>)
    requires Valid(p)
    ensures r.Ok? ==> Valid(r.value)
  {
    match t
    case SrcName(name) => Ok(p.(patches := p.patches + [Patch(name, "", [])]))
    case DstName(name) =>
      if p.patches == [] then Failed
      else
        var n := |p.patches| - 1;
        Ok(p.(patches := p.patches[n := p.patches[n].(dst := name)]))
    case Start(s, d) =>
      if p.patches == [] then Failed
      else
        var n := |p.patches| - 1;
        Ok(Parser(p.patches[n := p.patches[n].(chunks := p.patches[n].chunks + [Chunk(s, d, [])])], n))
    case Body(line) => AddLine(p, line)
    case Garbage => Failed
  }

  function ParseTokens(p: Parser, tokens: seq<Token>): (r: Result<Parser>)
    requires Valid(p)
    ensures r.Ok? ==> Valid(r.value)
    decreases |tokens|
  {
    if tokens == [] then Ok(p)
    else match Consume(p, tokens[0])
      case Failed => Failed
      case Ok(q) => ParseTokens(q, tokens[1..])
  }

  function Tokens(lines: seq<string>): (ts: seq<Token>) {
    seq(|lines|, i requires 0 <= i < |lines| => Classify(lines[i]))
  }

  const START := Parser([], -1)

  /** `parse_patchset`. */
  function Parse(lines: seq<string>): Result<seq<Patch>> {
    match ParseTokens(START, Tokens(lines))
    case Failed => Failed
    case Ok(p) => Ok(p.patches)
  }

  method ParsePatchset(lines: seq<string>) returns (r: Result<seq<Patch>>)
    ensures r == Parse(lines)
  {
    var p := START;
    for i := 0 to |lines|
      invariant Valid(p) && ParseTokens(START, Tokens(lines)) == ParseTokens(p, Tokens(lines)[i..])
    {
      var q := Consume(p, Classify(lines[i]));
      if q.Failed? { return Failed; }
      p := q.value;
    }
    return Ok(p.patches);
  }
}
