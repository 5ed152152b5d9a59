/** What the patch parser accepts and what it makes of it, said of the lines themselves. */
module ParserMeaning {
  import opened Patchset

  // ---------------------------------------------------------------- chunk headers

  ghost predicate Digital(d: string) {
    d != "" && forall i :: 0 <= i < |d| ==> IsDigit(d[i])
  }

  /** The regular expression of the parser: four numbers, and anything behind the second "@@". */
  ghost predicate HeaderOf(line: string, a: string, b: string, c: string, d: string, rest: string) {
    && Digital(a) && Digital(b) && Digital(c) && Digital(d)
    && line == "@@ -" + (a + ("," + (b + (" +" + (c + ("," + (d + (" @@" + rest))))))))
  }

  lemma ExpectIff(prefix: string, s: string)
    ensures Expect(prefix, s).Ok? <==> exists r :: s == prefix + r
    ensures Expect(prefix, s).Ok? ==> s == prefix + Expect(prefix, s).value
    ensures forall r :: s == prefix + r ==> Expect(prefix, s) == Ok(r)
  {
    if prefix <= s { assert s == prefix + s[|prefix|..]; }
    forall r | s == prefix + r ensures Expect(prefix, s) == Ok(r) { assert (prefix + r)[|prefix|..] == r; }
  }

  lemma NumberReads(d: string, rest: string)
    requires Digital(d) && (rest == "" || !IsDigit(rest[0]))
    ensures Number(d + rest) == Ok((ParseNat(d), rest))
  {
    DigitsOf(d, rest);
  }

  /** A line is a chunk header with these positions iff it matches the expression. */
  lemma HeaderIff(line: string, src: nat, dst: nat)
    ensures ParseHeader(line) == Ok((src, dst))
       <==> exists a, b, c, d, rest :: HeaderOf(line, a, b, c, d, rest) && ParseNat(a) == src && ParseNat(c) == dst
  {
    if ParseHeader(line) == Ok((src, dst)) { HeaderSplits(line, src, dst); }
    if a, b, c, d, rest :| HeaderOf(line, a, b, c, d, rest) && ParseNat(a) == src && ParseNat(c) == dst {
      HeaderMatches(line, a, b, c, d, rest);
    }
  }

  lemma HeaderMatches(line: string, a: string, b: string, c: string, d: string, rest: string)
    requires HeaderOf(line, a, b, c, d, rest)
    ensures ParseHeader(line) == Ok((ParseNat(a), ParseNat(c)))
  {
    var t8 := " @@" + rest;
    var t7 := "," + (d + t8);
    var t5 := " +" + (c + t7);
    var t3 := "," + (b + t5);
    ExpectIff("@@ -", line);
    NumberReads(a, t3);
    ExpectIff(",", t3);
    NumberReads(b, t5);
    ExpectIff(" +", t5);
    NumberReads(c, t7);
    ExpectIff(",", t7);
    NumberReads(d, t8);
    ExpectIff(" @@", t8);
  }

  lemma NumberSplits(s: string) returns (d: string, rest: string)
    requires Number(s).Ok?
    ensures Digital(d) && Number(s) == Ok((ParseNat(d), rest)) && s == d + rest
  {
    d := Digits(s);
    rest := s[|d|..];
  }

  lemma HeaderSplits(line: string, src: nat, dst: nat)
    requires ParseHeader(line) == Ok((src, dst))
    ensures exists a, b, c, d, rest :: HeaderOf(line, a, b, c, d, rest) && ParseNat(a) == src && ParseNat(c) == dst
  {
    ExpectIff("@@ -", line);
    var a, r2 := NumberSplits(Expect("@@ -", line).value);
    ExpectIff(",", r2);
    var b, r4 := NumberSplits(Expect(",", r2).value);
    ExpectIff(" +", r4);
    var c, r6 := NumberSplits(Expect(" +", r4).value);
    ExpectIff(",", r6);
    var d, r8 := NumberSplits(Expect(",", r6).value);
    ExpectIff(" @@", r8);
    assert HeaderOf(line, a, b, c, d, Expect(" @@", r8).value);
  }

  // ---------------------------------------------------------------- what a line is taken for

  /** What stands in front of a body line. */
  function Sign(k: Kind): char {
    match k
    case Src => '-'
    case Dst => '+'
    case Both => ' '
    case Unset => '?'
  }

  ghost predicate IsHeader(line: string) {
    exists a, b, c, d, rest :: HeaderOf(line, a, b, c, d, rest)
  }

  /** Names come before headers and headers before body lines; whatever fits nothing is garbage. */
  lemma LineMeaning(line: string)
    ensures forall name :: Classify(line) == SrcName(name) <==> line == "--- " + name
    ensures forall name :: Classify(line) == DstName(name) <==> line == "+++ " + name
    ensures Classify(line).Start? <==> IsHeader(line)
    ensures Classify(line).Start? ==> ParseHeader(line) == Ok((Classify(line).srcPos, Classify(line).dstPos))
    ensures forall l :: Classify(line) == Body(l)
                   <==> !l.kind.Unset? && line == [Sign(l.kind)] + l.text && !("--- " <= line) && !("+++ " <= line)
  {
    forall name ensures Classify(line) == SrcName(name) <==> line == "--- " + name { ExpectIff("--- ", line); }
    forall name ensures Classify(line) == DstName(name) <==> line == "+++ " + name { ExpectIff("+++ ", line); }
    if ParseHeader(line).Ok? {
      HeaderSplits(line, ParseHeader(line).value.0, ParseHeader(line).value.1);
    }
    if a, b, c, d, rest :| HeaderOf(line, a, b, c, d, rest) { HeaderMatches(line, a, b, c, d, rest); }
    forall l ensures Classify(line) == Body(l)
                <==> !l.kind.Unset? && line == [Sign(l.kind)] + l.text && !("--- " <= line) && !("+++ " <= line)
    {
      BodyMeaning(line, l);
    }
  }

  lemma BodyMeaning(line: string, l: Line)
    ensures Classify(line) == Body(l)
       <==> !l.kind.Unset? && line == [Sign(l.kind)] + l.text && !("--- " <= line) && !("+++ " <= line)
  {
    if line == [Sign(l.kind)] + l.text {
      assert line[0] == Sign(l.kind) && line[1..] == l.text;
    } else if line != "" {
      assert line == [line[0]] + line[1..];
    }
  }

  // ---------------------------------------------------------------- what the printed header says

  ghost function Kinds(lines: seq<Line>): seq<Kind> {
    seq(|lines|, i requires 0 <= i < |lines| => lines[i].kind)
  }

  /** How many lines belong to the source, and how many to the destination. */
  lemma {:induction false} LengthsCount(lines: seq<Line>)
    ensures SrcLen(lines) == multiset(Kinds(lines))[Src] + multiset(Kinds(lines))[Both]
    ensures DstLen(lines) == multiset(Kinds(lines))[Dst] + multiset(Kinds(lines))[Both]
  {
    if lines != [] {
      LengthsCount(lines[1..]);
      assert Kinds(lines) == [lines[0].kind] + Kinds(lines[1..]);
    }
  }

  /** A printed header carries the two positions and the numbers of source and destination lines. */
  lemma HeaderCounts(c: Chunk) returns (a: string, b: string, d: string, e: string)
    requires c.srcPos >= 0 && c.dstPos >= 0
    ensures HeaderOf(Header(c), a, b, d, e, "")
    ensures ParseNat(a) == c.srcPos && ParseNat(b) == multiset(Kinds(c.lines))[Src] + multiset(Kinds(c.lines))[Both]
    ensures ParseNat(d) == c.dstPos && ParseNat(e) == multiset(Kinds(c.lines))[Dst] + multiset(Kinds(c.lines))[Both]
  {
    LengthsCount(c.lines);
    a, b, d, e := Decimal(c.srcPos), Decimal(SrcLen(c.lines)), Decimal(c.dstPos), Decimal(DstLen(c.lines));
    DecimalRoundTrip(c.srcPos);
    DecimalRoundTrip(SrcLen(c.lines));
    DecimalRoundTrip(c.dstPos);
    DecimalRoundTrip(DstLen(c.lines));
    assert " @@" + "" == " @@";
  }

  /** A position is printed as its digits, with a sign if it is negative. */
  lemma IntegerSpelled(i: int) returns (d: string)
    ensures Digital(d) && FormatInt(i) == (if i < 0 then "-" else "") + d && ParseNat(d) == if i < 0 then -i else i
  {
    d := Decimal(if i < 0 then -i else i);
    DecimalRoundTrip(if i < 0 then -i else i);
    assert "" + d == d;
  }

  // ---------------------------------------------------------------- when parsing fails

  /** No expression matches, or the line needs a patch or a chunk and there has been none. */
  ghost predicate Misplaced(p: Parser, ts: seq<Token>, i: nat)
    requires i < |ts|
  {
    || ts[i].Garbage?
    || ((ts[i].DstName? || ts[i].Start?) && p.patches == [] && forall j :: 0 <= j < i ==> !ts[j].SrcName?)
    || (ts[i].Body? && p.chunkIn < 0 && forall j :: 0 <= j < i ==> !ts[j].Start?)
  }

  lemma MisplacedLater(p: Parser, ts: seq<Token>, i: nat)
    requires Valid(p) && i + 1 < |ts| && Consume(p, ts[0]).Ok?
    ensures Misplaced(Consume(p, ts[0]).value, ts[1..], i) <==> Misplaced(p, ts, i + 1)
  {
    var q := Consume(p, ts[0]).value;
    assert q.patches == [] <==> p.patches == [] && !ts[0].SrcName?;
    assert q.chunkIn < 0 <==> p.chunkIn < 0 && !ts[0].Start?;
    assert forall j :: 0 <= j < i ==> ts[1..][j] == ts[j + 1];
    assert (forall j :: 0 <= j < i + 1 ==> !ts[j].SrcName?) <==> !ts[0].SrcName? && forall j :: 0 <= j < i ==> !ts[1..][j].SrcName?;
    assert (forall j :: 0 <= j < i + 1 ==> !ts[j].Start?) <==> !ts[0].Start? && forall j :: 0 <= j < i ==> !ts[1..][j].Start?;
  }

  lemma {:induction false} TokensFailIff(p: Parser, ts: seq<Token>)
    requires Valid(p)
    ensures ParseTokens(p, ts).Failed? <==> exists i :: 0 <= i < |ts| && Misplaced(p, ts, i)
    decreases |ts|
  {
    if ts != [] {
      if Consume(p, ts[0]).Failed? {
        assert Misplaced(p, ts, 0);
      } else {
        var q := Consume(p, ts[0]).value;
        TokensFailIff(q, ts[1..]);
        if i :| 0 <= i < |ts[1..]| && Misplaced(q, ts[1..], i) { MisplacedLater(p, ts, i); }
        if i :| 0 <= i < |ts| && Misplaced(p, ts, i) {
          assert i > 0;
          MisplacedLater(p, ts, i - 1);
        }
      }
    }
  }

  /** The parser raises an exception exactly for a line that matches nothing, a destination name or a chunk header before
      any source name, or a body line before any chunk header. */
  lemma ParseFailsIff(lines: seq<string>)
    ensures Parse(lines).Failed? <==> exists i :: 0 <= i < |lines| && Misplaced(START, Tokens(lines), i)
  {
    TokensFailIff(START, Tokens(lines));
  }

  // ---------------------------------------------------------------- what a parsed file means

  predicate IsChunkPart(t: Token) { t.Start? || t.Body? }

  predicate IsHead(t: Token) { t.SrcName? || t.Start? }

  ghost function Keep(ts: seq<Token>, p: Token -> bool): seq<Token> {
    if ts == [] then []
    else Keep(ts[..|ts| - 1], p) + if p(ts[|ts| - 1]) then [ts[|ts| - 1]] else []
  }

  ghost function Bodies(lines: seq<Line>): seq<Token> {
    seq(|lines|, i requires 0 <= i < |lines| => Body(lines[i]))
  }

  /** A chunk as a header and its lines; the chunks of a patch, and of all patches. */
  ghost function ChunkParts(chunks: seq<Chunk>): seq<Token> {
    if chunks == [] then []
    else
      var c := chunks[|chunks| - 1];
      ChunkParts(chunks[..|chunks| - 1]) + (if c.srcPos >= 0 && c.dstPos >= 0 then [Start(c.srcPos, c.dstPos)] else []) + Bodies(c.lines)
  }

  ghost function AllParts(ps: seq<Patch>): seq<Token> {
    if ps == [] then [] else AllParts(ps[..|ps| - 1]) + ChunkParts(ps[|ps| - 1].chunks)
  }

  /** Every patch as its source name and the headers of its chunks. */
  ghost function Starts(chunks: seq<Chunk>): seq<Token> {
    if chunks == [] then []
    else
      var c := chunks[|chunks| - 1];
      Starts(chunks[..|chunks| - 1]) + if c.srcPos >= 0 && c.dstPos >= 0 then [Start(c.srcPos, c.dstPos)] else []
  }

  ghost function Heads(ps: seq<Patch>): seq<Token> {
    if ps == [] then [] else Heads(ps[..|ps| - 1]) + [SrcName(ps[|ps| - 1].src)] + Starts(ps[|ps| - 1].chunks)
  }

  /** The destination name read since the last source name, or none. */
  ghost function LastDst(ts: seq<Token>): string {
    if ts == [] then ""
    else match ts[|ts| - 1]
      case DstName(name) => name
      case SrcName(_) => ""
      case _ => LastDst(ts[..|ts| - 1])
  }

  ghost function Sources(ts: seq<Token>): nat {
    if ts == [] then 0 else Sources(ts[..|ts| - 1]) + if ts[|ts| - 1].SrcName? then 1 else 0
  }

  /** Where a patch ends: at the next source name, or at the end. */
  ghost predicate PatchEnd(ts: seq<Token>, i: nat) {
    i <= |ts| && Sources(ts[..i]) > 0 && (i == |ts| || ts[i].SrcName?)
  }

  ghost predicate DstAt(ts: seq<Token>, ps: seq<Patch>, i: nat)
    requires i <= |ts|
  {
    0 < Sources(ts[..i]) <= |ps| && ps[Sources(ts[..i]) - 1].dst == LastDst(ts[..i])
  }

  /** `ps` is what the tokens say. */
  ghost predicate Says(ts: seq<Token>, ps: seq<Patch>) {
    && AllParts(ps) == Keep(ts, IsChunkPart)
    && Heads(ps) == Keep(ts, IsHead)
    && |ps| == Sources(ts)
    && forall i :: PatchEnd(ts, i) ==> DstAt(ts, ps, i)
  }

  /** No chunks after the current one, and positions as they were read. */
  ghost predicate Tidy(p: Parser) {
    && Valid(p)
    && (forall k :: p.chunkIn < k < |p.patches| ==> p.patches[k].chunks == [])
  }

  /** Patches without chunks add nothing behind patch `k`. */
  lemma {:induction false} PartsUpTo(ps: seq<Patch>, k: nat)
    requires k < |ps| && forall j :: k < j < |ps| ==> ps[j].chunks == []
    ensures AllParts(ps) == AllParts(ps[..k]) + ChunkParts(ps[k].chunks)
  {
    var n := |ps| - 1;
    if k < n {
      PartsUpTo(ps[..n], k);
      assert ps[..n][..k] == ps[..k];
    }
  }

  lemma PartsUpdate(ps: seq<Patch>, k: nat, p: Patch, more: seq<Token>)
    requires k < |ps| && forall j :: k < j < |ps| ==> ps[j].chunks == []
    requires ChunkParts(p.chunks) == ChunkParts(ps[k].chunks) + more
    ensures AllParts(ps[k := p]) == AllParts(ps) + more
  {
    PartsUpTo(ps, k);
    PartsUpTo(ps[k := p], k);
    assert ps[k := p][..k] == ps[..k];
  }

  lemma {:induction false} HeadsUpdate(ps: seq<Patch>, k: nat, p: Patch)
    requires k < |ps| && p.src == ps[k].src && Starts(p.chunks) == Starts(ps[k].chunks)
    ensures Heads(ps[k := p]) == Heads(ps)
  {
    var n := |ps| - 1;
    if k == n {
      assert ps[k := p][..n] == ps[..n];
    } else {
      assert ps[k := p][..n] == ps[..n][k := p];
      HeadsUpdate(ps[..n], k, p);
    }
  }

  lemma LastPart(chunks: seq<Chunk>, c: Chunk)
    ensures ChunkParts(chunks + [c]) == ChunkParts(chunks) + (if c.srcPos >= 0 && c.dstPos >= 0 then [Start(c.srcPos, c.dstPos)] else []) + Bodies(c.lines)
    ensures Starts(chunks + [c]) == Starts(chunks) + if c.srcPos >= 0 && c.dstPos >= 0 then [Start(c.srcPos, c.dstPos)] else []
  {
    assert (chunks + [c])[..|chunks|] == chunks;
  }

  lemma LastPatch(ps: seq<Patch>, p: Patch)
    ensures AllParts(ps + [p]) == AllParts(ps) + ChunkParts(p.chunks)
    ensures Heads(ps + [p]) == Heads(ps) + [SrcName(p.src)] + Starts(p.chunks)
  {
    assert (ps + [p])[..|ps|] == ps;
  }

  /** One more line in the last chunk. */
  lemma OneMoreLine(chunks: seq<Chunk>, l: Line)
    requires chunks != []
    ensures var n := |chunks| - 1;
            var longer := chunks[n := chunks[n].(lines := chunks[n].lines + [l])];
            ChunkParts(longer) == ChunkParts(chunks) + [Body(l)] && Starts(longer) == Starts(chunks)
  {
    var n := |chunks| - 1;
    var c := chunks[n].(lines := chunks[n].lines + [l]);
    assert chunks[n := c] == chunks[..n] + [c] && chunks == chunks[..n] + [chunks[n]];
    LastPart(chunks[..n], c);
    LastPart(chunks[..n], chunks[n]);
    assert Bodies(c.lines) == Bodies(chunks[n].lines) + [Body(l)];
  }

  lemma TidyStep(p: Parser, t: Token)
    requires Tidy(p) && Consume(p, t).Ok?
    ensures Tidy(Consume(p, t).value)
  {
  }

  lemma KeepMore(ts: seq<Token>, t: Token, p: Token -> bool)
    ensures Keep(ts + [t], p) == Keep(ts, p) + if p(t) then [t] else []
  {
    assert (ts + [t])[..|ts|] == ts;
  }

  lemma BodySays(ps: seq<Patch>, k: nat, l: Line)
    requires k < |ps| && ps[k].chunks != [] && forall j :: k < j < |ps| ==> ps[j].chunks == []
    ensures var chunks, n := ps[k].chunks, |ps[k].chunks| - 1;
            var qs := ps[k := ps[k].(chunks := chunks[n := chunks[n].(lines := chunks[n].lines + [l])])];
            AllParts(qs) == AllParts(ps) + [Body(l)] && Heads(qs) == Heads(ps)
  {
    var chunks, n := ps[k].chunks, |ps[k].chunks| - 1;
    var patch := ps[k].(chunks := chunks[n := chunks[n].(lines := chunks[n].lines + [l])]);
    OneMoreLine(chunks, l);
    PartsUpdate(ps, k, patch, [Body(l)]);
    HeadsUpdate(ps, k, patch);
  }

  lemma StartSays(rest: seq<Patch>, patch: Patch, a: nat, b: nat)
    ensures var longer := rest + [patch.(chunks := patch.chunks + [Chunk(a, b, [])])];
            && AllParts(longer) == AllParts(rest + [patch]) + [Start(a, b)]
            && Heads(longer) == Heads(rest + [patch]) + [Start(a, b)]
  {
    LastPatch(rest, patch);
    LastPatch(rest, patch.(chunks := patch.chunks + [Chunk(a, b, [])]));
    LastPart(patch.chunks, Chunk(a, b, []));
    assert Bodies([]) == [];
  }

  lemma LineSays(p: Parser, l: Line)
    requires Tidy(p) && Consume(p, Body(l)).Ok?
    ensures AllParts(Consume(p, Body(l)).value.patches) == AllParts(p.patches) + [Body(l)]
    ensures Heads(Consume(p, Body(l)).value.patches) == Heads(p.patches)
  {
    BodySays(p.patches, p.chunkIn, l);
  }

  lemma ChunkSays(p: Parser, a: nat, b: nat)
    requires Tidy(p) && Consume(p, Start(a, b)).Ok?
    ensures AllParts(Consume(p, Start(a, b)).value.patches) == AllParts(p.patches) + [Start(a, b)]
    ensures Heads(Consume(p, Start(a, b)).value.patches) == Heads(p.patches) + [Start(a, b)]
  {
    var n := |p.patches| - 1;
    var rest, patch := p.patches[..n], p.patches[n];
    var longer := patch.(chunks := patch.chunks + [Chunk(a, b, [])]);
    StartSays(rest, patch, a, b);
    assert p.patches == rest + [patch] && p.patches[n := longer] == rest + [longer];
  }

  lemma NameSays(p: Parser, t: Token)
    requires Tidy(p) && (t.SrcName? || t.DstName?) && Consume(p, t).Ok?
    ensures AllParts(Consume(p, t).value.patches) == AllParts(p.patches)
    ensures Heads(Consume(p, t).value.patches) == Heads(p.patches) + if IsHead(t) then [t] else []
  {
    if t.SrcName? {
      LastPatch(p.patches, Patch(t.name, "", []));
    } else {
      var n := |p.patches| - 1;
      PartsUpdate(p.patches, n, p.patches[n].(dst := t.name), []);
      HeadsUpdate(p.patches, n, p.patches[n].(dst := t.name));
    }
  }

  lemma {:induction false} SourcesGrow(ts: seq<Token>, i: nat)
    requires i < |ts| && ts[i].SrcName?
    ensures Sources(ts[..i]) < Sources(ts)
  {
    var n := |ts| - 1;
    if i < n {
      assert ts[..n][..i] == ts[..i];
      SourcesGrow(ts[..n], i);
    }
  }

  lemma DstSays(ts: seq<Token>, p: Parser, t: Token)
    requires Valid(p) && Consume(p, t).Ok? && |p.patches| == Sources(ts)
    requires forall i :: PatchEnd(ts, i) ==> DstAt(ts, p.patches, i)
    ensures var q := Consume(p, t).value; |q.patches| == Sources(ts + [t])
    ensures var q := Consume(p, t).value; forall i :: PatchEnd(ts + [t], i) ==> DstAt(ts + [t], q.patches, i)
  {
    var q, us := Consume(p, t).value, ts + [t];
    assert us[..|ts|] == ts;
    forall i: nat | PatchEnd(us, i) ensures DstAt(us, q.patches, i) {
      if i <= |ts| {
        assert us[..i] == ts[..i];
        assert PatchEnd(ts, i) && DstAt(ts, p.patches, i);
        if i < |ts| { SourcesGrow(ts, i); }
      } else {
        assert us[..i] == us && ts[..|ts|] == ts;
        if !t.SrcName? && !t.DstName? { assert PatchEnd(ts, |ts|) && DstAt(ts, p.patches, |ts|); }
      }
    }
  }

  lemma ConsumeSays(ts: seq<Token>, p: Parser, t: Token)
    requires Tidy(p) && Says(ts, p.patches) && Consume(p, t).Ok?
    ensures Tidy(Consume(p, t).value) && Says(ts + [t], Consume(p, t).value.patches)
  {
    DstSays(ts, p, t);
    TidyStep(p, t);
    KeepMore(ts, t, IsChunkPart);
    KeepMore(ts, t, IsHead);
    match t {
      case Start(a, b) => ChunkSays(p, a, b);
      case Body(l) => LineSays(p, l);
      case _ => NameSays(p, t);
    }
  }

  lemma {:induction false} TokensSay(seen: seq<Token>, p: Parser, ts: seq<Token>)
    requires Tidy(p) && Says(seen, p.patches) && ParseTokens(p, ts).Ok?
    ensures Says(seen + ts, ParseTokens(p, ts).value.patches)
    decreases |ts|
  {
    if ts == [] {
      assert seen + [] == seen;
    } else {
      ConsumeSays(seen, p, ts[0]);
      TokensSay(seen + [ts[0]], Consume(p, ts[0]).value, ts[1..]);
      assert seen + [ts[0]] + ts[1..] == seen + ts;
    }
  }

  /** A parsed file has one patch for each source name, with the last destination name before the next one; its chunks
      start where the headers stand, and its body lines follow the last header before them, even one of an earlier patch. */
  lemma ParseSays(lines: seq<string>)
    requires Parse(lines).Ok?
    ensures Says(Tokens(lines), Parse(lines).value)
  {
    assert Says([], []);
    TokensSay([], START, Tokens(lines));
    assert [] + Tokens(lines) == Tokens(lines);
  }
}
