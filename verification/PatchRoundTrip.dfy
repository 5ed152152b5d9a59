/** Printing a patch set and parsing it back: exactly when nothing is lost. */
module PatchRoundTrip {
  import opened Patchset

  ghost predicate CleanLine(l: Line) {
    && !l.kind.Unset? && '\n' !in l.text
    && (l.kind.Src? ==> !("-- " <= l.text))
    && (l.kind.Dst? ==> !("++ " <= l.text))
  }

  ghost predicate CleanChunk(c: Chunk) {
    c.srcPos >= 0 && c.dstPos >= 0 && forall i :: 0 <= i < |c.lines| ==> CleanLine(c.lines[i])
  }

  ghost predicate CleanPatch(p: Patch) {
    '\n' !in p.src && '\n' !in p.dst && forall i :: 0 <= i < |p.chunks| ==> CleanChunk(p.chunks[i])
  }

  /** Names and contents without newlines, positions that are numbers of lines, every line typed, no source-only line
      that reads like a source header and no destination-only line that reads like a destination header. */
  ghost predicate Clean(ps: seq<Patch>) {
    forall i :: 0 <= i < |ps| ==> CleanPatch(ps[i])
  }

  /** Printing succeeds, and parsing the printed text gives the patches back. */
  ghost predicate RoundTrips(ps: seq<Patch>) {
    PrintPatches(ps).Ok? && Parse(ReadLines(Text(PrintPatches(ps).value))) == Ok(ps)
  }

  // ---------------------------------------------------------------- what the printed lines are taken for

  lemma ExpectSkips(prefix: string, rest: string)
    ensures Expect(prefix, prefix + rest) == Ok(rest)
  {
    assert (prefix + rest)[|prefix|..] == rest;
  }

  lemma NumberReads(n: nat, rest: string)
    requires rest != [] && !IsDigit(rest[0])
    ensures Number(Decimal(n) + rest) == Ok((n, rest))
  {
    DigitsOf(Decimal(n), rest);
    DecimalRoundTrip(n);
  }

  lemma HeaderRoundTrip(c: Chunk)
    requires c.srcPos >= 0 && c.dstPos >= 0
    ensures ParseHeader(Header(c)) == Ok((c.srcPos, c.dstPos))
  {
    var n, m := SrcLen(c.lines), DstLen(c.lines);
    var t7 := "," + (Decimal(m) + " @@");
    var t5 := " +" + (Decimal(c.dstPos) + t7);
    var t3 := "," + (Decimal(n) + t5);
    assert Header(c) == "@@ -" + (Decimal(c.srcPos) + t3);
    ExpectSkips("@@ -", Decimal(c.srcPos) + t3);
    NumberReads(c.srcPos, t3);
    ExpectSkips(",", Decimal(n) + t5);
    NumberReads(n, t5);
    ExpectSkips(" +", Decimal(c.dstPos) + t7);
    NumberReads(c.dstPos, t7);
    ExpectSkips(",", Decimal(m) + " @@");
    NumberReads(m, " @@");
    ExpectSkips(" @@", "");
    assert " @@" + "" == " @@";
  }

  lemma HeaderLookalike(c: string, rest: string, text: string)
    ensures c + rest <= c + text <==> rest <= text
  {
    if c + rest <= c + text {
      assert (c + text)[|c|..] == text && (c + text)[..|c + rest|] == c + rest;
      assert text[..|rest|] == (c + rest)[|c|..] == rest;
    }
  }

  /** How every printed line is classified. */
  lemma ClassifyLine(l: Line)
    requires !l.kind.Unset?
    ensures Classify(PrintLine(l)) ==
            if l.kind.Src? && "-- " <= l.text then SrcName(l.text[3..])
            else if l.kind.Dst? && "++ " <= l.text then DstName(l.text[3..])
            else Body(l)
  {
    var s := PrintLine(l);
    assert s[1..] == l.text;
    assert l.kind.Src? ==> ("--- " <= s <==> "-- " <= l.text) by { HeaderLookalike("-", "-- ", l.text); }
    assert l.kind.Dst? ==> ("+++ " <= s <==> "++ " <= l.text) by { HeaderLookalike("+", "++ ", l.text); }
    assert |l.text| >= 3 ==> s[4..] == l.text[3..];
    NotPrefix("@@ -", s);
    if !l.kind.Src? { NotPrefix("--- ", s); NotPrefix("-", s); }
    if !l.kind.Dst? { NotPrefix("+++ ", s); NotPrefix("+", s); }
  }

  lemma NotPrefix(a: string, b: string)
    requires a != [] && b != [] && a[0] != b[0]
    ensures !(a <= b)
  {
  }

  lemma ClassifyNames(src: string, dst: string)
    ensures Classify("--- " + src) == SrcName(src) && Classify("+++ " + dst) == DstName(dst)
  {
    assert ("--- " + src)[4..] == src && ("+++ " + dst)[4..] == dst;
    NotPrefix("--- ", "+++ " + dst);
  }

  lemma ClassifyHeader(c: Chunk)
    requires c.srcPos >= 0 && c.dstPos >= 0
    ensures Classify(Header(c)) == Start(c.srcPos, c.dstPos)
  {
    HeaderRoundTrip(c);
    NotPrefix("--- ", Header(c));
    NotPrefix("+++ ", Header(c));
  }

  /** What a printed body line is taken for. */
  ghost function LineToken(l: Line): Token {
    if l.kind.Src? && "-- " <= l.text then SrcName(l.text[3..])
    else if l.kind.Dst? && "++ " <= l.text then DstName(l.text[3..])
    else Body(l)
  }

  ghost function LineTokens(lines: seq<Line>): seq<Token> {
    if lines == [] then [] else [LineToken(lines[0])] + LineTokens(lines[1..])
  }

  ghost predicate Numbered(chunks: seq<Chunk>) {
    forall i :: 0 <= i < |chunks| ==> chunks[i].srcPos >= 0 && chunks[i].dstPos >= 0
  }

  ghost function ChunkStart(c: Chunk): Token {
    if c.srcPos >= 0 && c.dstPos >= 0 then Start(c.srcPos, c.dstPos) else Garbage
  }

  ghost function ChunkTokens(chunks: seq<Chunk>): seq<Token> {
    if chunks == [] then []
    else [ChunkStart(chunks[0])] + LineTokens(chunks[0].lines) + ChunkTokens(chunks[1..])
  }

  ghost function PatchTokens(ps: seq<Patch>): seq<Token> {
    if ps == [] then []
    else [SrcName(ps[0].src), DstName(ps[0].dst)] + ChunkTokens(ps[0].chunks) + PatchTokens(ps[1..])
  }

  lemma {:induction false} PrintedLines(lines: seq<Line>)
    ensures PrintLines(lines).Ok? <==> forall i :: 0 <= i < |lines| ==> !lines[i].kind.Unset?
    ensures PrintLines(lines).Ok? ==> Tokens(PrintLines(lines).value) == LineTokens(lines)
  {
    if lines != [] {
      PrintedLines(lines[1..]);
      assert lines == [lines[0]] + lines[1..];
      if !lines[0].kind.Unset? { ClassifyLine(lines[0]); }
    }
  }

  /** The header line stands for itself: its text no longer matters. */
  lemma HeaderLine(c: Chunk) returns (header: string)
    requires c.srcPos >= 0 && c.dstPos >= 0 && PrintLines(c.lines).Ok?
    ensures Tokens([header]) == [ChunkStart(c)]
    ensures forall rest :: PrintChunks([c] + rest) ==
              match PrintChunks(rest) case Failed => Failed case Ok(more) => Ok([header] + PrintLines(c.lines).value + more)
  {
    header := Header(c);
    ClassifyHeader(c);
    forall rest: seq<Chunk>
      ensures PrintChunks([c] + rest) ==
              match PrintChunks(rest) case Failed => Failed case Ok(more) => Ok([header] + PrintLines(c.lines).value + more)
    {
      assert ([c] + rest)[1..] == rest;
    }
  }

  lemma {:induction false} PrintedChunks(chunks: seq<Chunk>)
    requires PrintChunks(chunks).Ok? && Numbered(chunks)
    ensures Tokens(PrintChunks(chunks).value) == ChunkTokens(chunks)
  {
    if chunks != [] {
      PrintedLines(chunks[0].lines);
      PrintedChunks(chunks[1..]);
      var header := HeaderLine(chunks[0]);
      assert [chunks[0]] + chunks[1..] == chunks;
      TokensOfThree([header], PrintLines(chunks[0].lines).value, PrintChunks(chunks[1..]).value);
    }
  }

  lemma TokensOfThree(a: seq<string>, b: seq<string>, c: seq<string>)
    ensures Tokens(a + b + c) == Tokens(a) + Tokens(b) + Tokens(c)
  {
  }

  lemma {:induction false} PrintedPatches(ps: seq<Patch>)
    requires PrintPatches(ps).Ok? && forall i :: 0 <= i < |ps| ==> Numbered(ps[i].chunks)
    ensures Tokens(PrintPatches(ps).value) == PatchTokens(ps)
  {
    if ps != [] {
      PrintedChunks(ps[0].chunks);
      PrintedPatches(ps[1..]);
      ClassifyNames(ps[0].src, ps[0].dst);
      TokensOfThree(["--- " + ps[0].src, "+++ " + ps[0].dst], PrintChunks(ps[0].chunks).value, PrintPatches(ps[1..]).value);
    }
  }

  // ---------------------------------------------------------------- clean patches survive

  lemma {:induction false} ParseConcat(p: Parser, a: seq<Token>, b: seq<Token>)
    requires Valid(p) && ParseTokens(p, a).Ok?
    ensures ParseTokens(p, a + b) == ParseTokens(ParseTokens(p, a).value, b)
    decreases |a|
  {
    if a == [] {
      assert a + b == b;
    } else {
      assert (a + b)[1..] == a[1..] + b;
      ParseConcat(Consume(p, a[0]).value, a[1..], b);
    }
  }

  /** Consuming one token and then the others. */
  lemma ParseFirst(p: Parser, t: Token, rest: seq<Token>)
    requires Valid(p) && Consume(p, t).Ok?
    ensures ParseTokens(p, [t] + rest) == ParseTokens(Consume(p, t).value, rest)
  {
    assert ([t] + rest)[1..] == rest;
  }

  /** A parser that has just added to the chunk `c`, the last one of the patch after `done`. */
  ghost function Inside(done: seq<Patch>, patch: Patch, c: Chunk): (p: Parser)
    ensures Valid(p)
  {
    Parser(done + [patch.(chunks := patch.chunks + [c])], |done|)
  }

  lemma LineParses(done: seq<Patch>, patch: Patch, c: Chunk, l: Line)
    ensures Consume(Inside(done, patch, c), Body(l)) == Ok(Inside(done, patch, c.(lines := c.lines + [l])))
  {
    var p := Inside(done, patch, c);
    var c' := c.(lines := c.lines + [l]);
    assert p.patches[|done|].chunks[|patch.chunks| := c'] == patch.chunks + [c'];
    assert p.patches[|done| := patch.(chunks := patch.chunks + [c'])] == done + [patch.(chunks := patch.chunks + [c'])];
  }

  lemma {:induction false} BodyParses(done: seq<Patch>, patch: Patch, c: Chunk, lines: seq<Line>)
    requires forall i :: 0 <= i < |lines| ==> CleanLine(lines[i])
    ensures ParseTokens(Inside(done, patch, c), LineTokens(lines)) == Ok(Inside(done, patch, c.(lines := c.lines + lines)))
    decreases |lines|
  {
    if lines == [] {
      assert c.lines + [] == c.lines;
    } else {
      LineParses(done, patch, c, lines[0]);
      BodyParses(done, patch, c.(lines := c.lines + [lines[0]]), lines[1..]);
      assert c.lines + [lines[0]] + lines[1..] == c.lines + lines;
      ParseFirst(Inside(done, patch, c), Body(lines[0]), LineTokens(lines[1..]));
    }
  }

  /** A chunk header followed by its body adds one chunk to the last patch. */
  lemma ChunkParses(p: Parser, done: seq<Patch>, patch: Patch, c: Chunk)
    requires Valid(p) && p.patches == done + [patch] && CleanChunk(c)
    ensures ParseTokens(p, [ChunkStart(c)] + LineTokens(c.lines)) == Ok(Inside(done, patch, c))
  {
    var empty := Chunk(c.srcPos, c.dstPos, []);
    assert p.patches[|done| := patch.(chunks := patch.chunks + [empty])] == done + [patch.(chunks := patch.chunks + [empty])];
    BodyParses(done, patch, empty, c.lines);
    assert [] + c.lines == c.lines;
    ParseFirst(p, Start(c.srcPos, c.dstPos), LineTokens(c.lines));
  }

  lemma {:induction false} ChunksParse(p: Parser, done: seq<Patch>, patch: Patch, chunks: seq<Chunk>)
    requires Valid(p) && p.patches == done + [patch] && forall i :: 0 <= i < |chunks| ==> CleanChunk(chunks[i])
    ensures var r := ParseTokens(p, ChunkTokens(chunks));
            r.Ok? && r.value.patches == done + [patch.(chunks := patch.chunks + chunks)]
    decreases |chunks|
  {
    if chunks == [] {
      assert patch.chunks + [] == patch.chunks;
    } else {
      var c := chunks[0];
      ChunkParses(p, done, patch, c);
      ChunksParse(Inside(done, patch, c), done, patch.(chunks := patch.chunks + [c]), chunks[1..]);
      assert patch.chunks + [c] + chunks[1..] == patch.chunks + chunks;
      ParseConcat(p, [ChunkStart(c)] + LineTokens(c.lines), ChunkTokens(chunks[1..]));
    }
  }

  lemma DstNameParses(p: Parser, done: seq<Patch>, src: string, dst: string, rest: seq<Token>)
    requires Valid(p) && p.patches == done + [Patch(src, "", [])]
    ensures var q := Parser(done + [Patch(src, dst, [])], p.chunkIn);
            Valid(q) && ParseTokens(p, [DstName(dst)] + rest) == ParseTokens(q, rest)
  {
    assert p.patches[|done| := Patch(src, dst, [])] == done + [Patch(src, dst, [])];
    ParseFirst(p, DstName(dst), rest);
  }

  lemma NamesParse(p: Parser, src: string, dst: string, rest: seq<Token>)
    requires Valid(p)
    ensures var q := Parser(p.patches + [Patch(src, dst, [])], p.chunkIn);
            Valid(q) && ParseTokens(p, [SrcName(src), DstName(dst)] + rest) == ParseTokens(q, rest)
  {
    ParseFirst(p, SrcName(src), [DstName(dst)] + rest);
    DstNameParses(Parser(p.patches + [Patch(src, "", [])], p.chunkIn), p.patches, src, dst, rest);
    assert [SrcName(src), DstName(dst)] + rest == [SrcName(src)] + ([DstName(dst)] + rest);
  }

  /** The tokens of one patch, followed by others. */
  lemma PatchParses(p: Parser, patch: Patch, rest: seq<Token>) returns (q: Parser)
    requires Valid(p) && CleanPatch(patch)
    ensures Valid(q) && q.patches == p.patches + [patch]
    ensures ParseTokens(p, [SrcName(patch.src), DstName(patch.dst)] + ChunkTokens(patch.chunks) + rest) == ParseTokens(q, rest)
  {
    var bare, names, body := Patch(patch.src, patch.dst, []), [SrcName(patch.src), DstName(patch.dst)], ChunkTokens(patch.chunks);
    var begun := Parser(p.patches + [bare], p.chunkIn);
    NamesParse(p, patch.src, patch.dst, body + rest);
    ChunksParse(begun, p.patches, bare, patch.chunks);
    assert [] + patch.chunks == patch.chunks;
    ParseConcat(begun, body, rest);
    assert names + (body + rest) == names + body + rest;
    q := ParseTokens(begun, body).value;
  }

  lemma {:induction false} PatchesParse(p: Parser, ps: seq<Patch>)
    requires Valid(p) && Clean(ps)
    ensures var r := ParseTokens(p, PatchTokens(ps)); r.Ok? && r.value.patches == p.patches + ps
    decreases |ps|
  {
    if ps != [] {
      assert CleanPatch(ps[0]);
      var q := PatchParses(p, ps[0], PatchTokens(ps[1..]));
      PatchesParse(q, ps[1..]);
      assert p.patches + [ps[0]] + ps[1..] == p.patches + ps;
    }
  }

  // ---------------------------------------------------------------- no newline is added

  ghost predicate OneLiners(lines: seq<string>) {
    forall i :: 0 <= i < |lines| ==> '\n' !in lines[i]
  }

  lemma HeaderIsOneLine(c: Chunk)
    requires c.srcPos >= 0 && c.dstPos >= 0
    ensures '\n' !in Header(c)
  {
    NoNewlineInDecimal(c.srcPos);
    NoNewlineInDecimal(c.dstPos);
    NoNewlineInDecimal(SrcLen(c.lines));
    NoNewlineInDecimal(DstLen(c.lines));
  }

  lemma NoNewlineInDecimal(n: nat)
    ensures '\n' !in Decimal(n)
  {
    assert forall i :: 0 <= i < |Decimal(n)| ==> IsDigit(Decimal(n)[i]);
  }

  /** Names and texts are single lines, positions are not negative, and every line is typed. */
  ghost predicate PlainChunk(c: Chunk) {
    c.srcPos >= 0 && c.dstPos >= 0 && forall i :: 0 <= i < |c.lines| ==> !c.lines[i].kind.Unset? && '\n' !in c.lines[i].text
  }

  ghost predicate PlainPatch(p: Patch) {
    '\n' !in p.src && '\n' !in p.dst && forall i :: 0 <= i < |p.chunks| ==> PlainChunk(p.chunks[i])
  }

  ghost predicate Plain(ps: seq<Patch>) {
    forall i :: 0 <= i < |ps| ==> PlainPatch(ps[i])
  }

  lemma {:induction false} LinesAreOneLiners(lines: seq<Line>)
    requires forall i :: 0 <= i < |lines| ==> !lines[i].kind.Unset? && '\n' !in lines[i].text
    ensures PrintLines(lines).Ok? && OneLiners(PrintLines(lines).value)
  {
    if lines != [] { LinesAreOneLiners(lines[1..]); }
  }

  lemma {:induction false} ChunksAreOneLiners(chunks: seq<Chunk>)
    requires forall i :: 0 <= i < |chunks| ==> PlainChunk(chunks[i])
    ensures PrintChunks(chunks).Ok? && OneLiners(PrintChunks(chunks).value)
  {
    if chunks != [] {
      LinesAreOneLiners(chunks[0].lines);
      ChunksAreOneLiners(chunks[1..]);
      HeaderIsOneLine(chunks[0]);
    }
  }

  lemma {:induction false} PatchesAreOneLiners(ps: seq<Patch>)
    requires Plain(ps)
    ensures PrintPatches(ps).Ok? && OneLiners(PrintPatches(ps).value)
  {
    if ps != [] {
      assert PlainPatch(ps[0]);
      ChunksAreOneLiners(ps[0].chunks);
      PatchesAreOneLiners(ps[1..]);
    }
  }

  /** For plain patches the file is read back as the printed lines, classified as `PatchTokens` says. */
  lemma PlainTokens(ps: seq<Patch>)
    requires Plain(ps)
    ensures PrintPatches(ps).Ok? && Tokens(ReadLines(Text(PrintPatches(ps).value))) == PatchTokens(ps)
  {
    PatchesAreOneLiners(ps);
    ReadsWhatWasWritten(PrintPatches(ps).value);
    forall i | 0 <= i < |ps| ensures Numbered(ps[i].chunks) { assert PlainPatch(ps[i]); }
    PrintedPatches(ps);
  }

  // ---------------------------------------------------------------- what parsing can and cannot produce

  ghost predicate PlainToken(t: Token) {
    match t
    case SrcName(name) => '\n' !in name
    case DstName(name) => '\n' !in name
    case Start(_, _) => true
    case Body(l) => !l.kind.Unset? && '\n' !in l.text
    case Garbage => true
  }

  lemma OneLinersGivePlainTokens(line: string)
    requires '\n' !in line
    ensures PlainToken(Classify(line))
  {
  }

  lemma {:induction false} ParsedIsPlain(p: Parser, ts: seq<Token>)
    requires Valid(p) && Plain(p.patches) && (forall i :: 0 <= i < |ts| ==> PlainToken(ts[i])) && ParseTokens(p, ts).Ok?
    ensures Plain(ParseTokens(p, ts).value.patches)
    decreases |ts|
  {
    if ts != [] {
      ParsedIsPlain(Consume(p, ts[0]).value, ts[1..]);
    }
  }

  ghost function ChunkTotal(chunks: seq<Chunk>): nat {
    if chunks == [] then 0 else |chunks[0].lines| + ChunkTotal(chunks[1..])
  }

  ghost function Total(ps: seq<Patch>): nat {
    if ps == [] then 0 else ChunkTotal(ps[0].chunks) + Total(ps[1..])
  }

  lemma {:induction false} ChunkTotalUpdate(chunks: seq<Chunk>, i: nat, c: Chunk)
    requires i < |chunks|
    ensures ChunkTotal(chunks[i := c]) + |chunks[i].lines| == ChunkTotal(chunks) + |c.lines|
  {
    if i == 0 {
      assert chunks[0 := c][1..] == chunks[1..];
    } else {
      assert chunks[i := c][1..] == chunks[1..][i - 1 := c];
      ChunkTotalUpdate(chunks[1..], i - 1, c);
    }
  }

  lemma {:induction false} TotalUpdate(ps: seq<Patch>, i: nat, p: Patch)
    requires i < |ps|
    ensures Total(ps[i := p]) + ChunkTotal(ps[i].chunks) == Total(ps) + ChunkTotal(p.chunks)
  {
    if i == 0 {
      assert ps[0 := p][1..] == ps[1..];
    } else {
      assert ps[i := p][1..] == ps[1..][i - 1 := p];
      TotalUpdate(ps[1..], i - 1, p);
    }
  }

  lemma {:induction false} ChunkTotalAppend(chunks: seq<Chunk>, more: seq<Chunk>)
    ensures ChunkTotal(chunks + more) == ChunkTotal(chunks) + ChunkTotal(more)
  {
    if chunks == [] {
      assert chunks + more == more;
    } else {
      assert (chunks + more)[1..] == chunks[1..] + more;
      ChunkTotalAppend(chunks[1..], more);
    }
  }

  lemma {:induction false} TotalAppend(ps: seq<Patch>, more: seq<Patch>)
    ensures Total(ps + more) == Total(ps) + Total(more)
  {
    if ps == [] {
      assert ps + more == more;
    } else {
      assert (ps + more)[1..] == ps[1..] + more;
      TotalAppend(ps[1..], more);
    }
  }

  ghost function Bodies(ts: seq<Token>): nat {
    if ts == [] then 0 else (if ts[0].Body? then 1 else 0) + Bodies(ts[1..])
  }

  lemma {:induction false} BodiesAppend(a: seq<Token>, b: seq<Token>)
    ensures Bodies(a + b) == Bodies(a) + Bodies(b)
  {
    if a == [] {
      assert a + b == b;
    } else {
      assert (a + b)[1..] == a[1..] + b;
      BodiesAppend(a[1..], b);
    }
  }

  lemma ConsumeCounts(p: Parser, t: Token)
    requires Valid(p) && Consume(p, t).Ok?
    ensures Total(Consume(p, t).value.patches) == Total(p.patches) + if t.Body? then 1 else 0
  {
    var q := Consume(p, t).value;
    match t {
      case SrcName(name) => TotalAppend(p.patches, [Patch(name, "", [])]);
      case DstName(_) => TotalUpdate(p.patches, |p.patches| - 1, q.patches[|p.patches| - 1]);
      case Start(s, d) =>
        var n := |p.patches| - 1;
        TotalUpdate(p.patches, n, q.patches[n]);
        ChunkTotalAppend(p.patches[n].chunks, [Chunk(s, d, [])]);
      case Body(l) =>
        var patch := p.patches[p.chunkIn];
        var n := |patch.chunks| - 1;
        TotalUpdate(p.patches, p.chunkIn, q.patches[p.chunkIn]);
        ChunkTotalUpdate(patch.chunks, n, q.patches[p.chunkIn].chunks[n]);
      case Garbage =>
    }
  }

  /** The parser keeps exactly the body lines. */
  lemma {:induction false} ParseCounts(p: Parser, ts: seq<Token>)
    requires Valid(p) && ParseTokens(p, ts).Ok?
    ensures Total(ParseTokens(p, ts).value.patches) == Total(p.patches) + Bodies(ts)
    decreases |ts|
  {
    if ts != [] {
      ConsumeCounts(p, ts[0]);
      ParseCounts(Consume(p, ts[0]).value, ts[1..]);
    }
  }

  /** A body line that looks like a header is not counted. */
  lemma {:induction false} LineBodies(lines: seq<Line>)
    ensures Bodies(LineTokens(lines)) <= |lines|
    ensures Bodies(LineTokens(lines)) == |lines| ==> forall i :: 0 <= i < |lines| ==> LineToken(lines[i]).Body?
  {
    if lines != [] { LineBodies(lines[1..]); }
  }

  lemma {:induction false} ChunkBodies(chunks: seq<Chunk>)
    ensures Bodies(ChunkTokens(chunks)) <= ChunkTotal(chunks)
    ensures Bodies(ChunkTokens(chunks)) == ChunkTotal(chunks) ==>
              forall i, k :: 0 <= i < |chunks| && 0 <= k < |chunks[i].lines| ==> LineToken(chunks[i].lines[k]).Body?
  {
    if chunks != [] {
      var head, body, rest := [ChunkStart(chunks[0])], LineTokens(chunks[0].lines), ChunkTokens(chunks[1..]);
      LineBodies(chunks[0].lines);
      ChunkBodies(chunks[1..]);
      BodiesAppend(head + body, rest);
      BodiesAppend(head, body);
      assert forall i :: 0 < i < |chunks| ==> chunks[i] == chunks[1..][i - 1];
    }
  }

  lemma {:induction false} PatchBodies(ps: seq<Patch>)
    ensures Bodies(PatchTokens(ps)) <= Total(ps)
    ensures Bodies(PatchTokens(ps)) == Total(ps) ==>
              forall h, i, k :: 0 <= h < |ps| && 0 <= i < |ps[h].chunks| && 0 <= k < |ps[h].chunks[i].lines| ==>
                                  LineToken(ps[h].chunks[i].lines[k]).Body?
  {
    if ps != [] {
      var names, body, rest := [SrcName(ps[0].src), DstName(ps[0].dst)], ChunkTokens(ps[0].chunks), PatchTokens(ps[1..]);
      ChunkBodies(ps[0].chunks);
      PatchBodies(ps[1..]);
      BodiesAppend(names + body, rest);
      BodiesAppend(names, body);
      assert names[1..] == [DstName(ps[0].dst)];
      assert forall h :: 0 < h < |ps| ==> ps[h] == ps[1..][h - 1];
    }
  }

  /** Parsing what was printed gives the patches back exactly for clean patch sets. */
  lemma RoundTripIffClean(ps: seq<Patch>)
    ensures RoundTrips(ps) <==> Clean(ps)
  {
    if Clean(ps) {
      CleanIsPlain(ps);
      PlainTokens(ps);
      PatchesParse(START, ps);
      assert [] + ps == ps;
    }
    if RoundTrips(ps) {
      var lines := ReadLines(Text(PrintPatches(ps).value));
      forall i | 0 <= i < |lines| ensures PlainToken(Tokens(lines)[i]) { OneLinersGivePlainTokens(lines[i]); }
      ParsedIsPlain(START, Tokens(lines));
      PlainTokens(ps);
      ParseCounts(START, Tokens(lines));
      PatchBodies(ps);
      PlainAndCountedIsClean(ps);
    }
  }

  lemma CleanIsPlain(ps: seq<Patch>)
    requires Clean(ps)
    ensures Plain(ps)
  {
    forall i | 0 <= i < |ps| ensures PlainPatch(ps[i]) {
      assert CleanPatch(ps[i]);
      forall j | 0 <= j < |ps[i].chunks| ensures PlainChunk(ps[i].chunks[j]) { assert CleanChunk(ps[i].chunks[j]); }
    }
  }

  lemma PlainAndCountedIsClean(ps: seq<Patch>)
    requires Plain(ps)
    requires forall h, i, k :: 0 <= h < |ps| && 0 <= i < |ps[h].chunks| && 0 <= k < |ps[h].chunks[i].lines| ==>
                                 LineToken(ps[h].chunks[i].lines[k]).Body?
    ensures Clean(ps)
  {
    forall h | 0 <= h < |ps| ensures CleanPatch(ps[h]) {
      assert PlainPatch(ps[h]);
      forall i | 0 <= i < |ps[h].chunks| ensures CleanChunk(ps[h].chunks[i]) {
        assert PlainChunk(ps[h].chunks[i]);
      }
    }
  }
}
