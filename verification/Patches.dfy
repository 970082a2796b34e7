/** Reading and writing unified-diff patch sets. */
module Patches {
  import opened Basics

  datatype Kind = SRC | DST | BOTH

  datatype Line = Line(kind: Kind, text: string)

  datatype Chunk = Chunk(srcPos: nat, dstPos: nat, lines: seq<Line>)

  datatype Patch = Patch(src: string, dst: string, chunks: seq<Chunk>)

  predicate IsSrc(line: Line) {
    line.kind.SRC? || line.kind.BOTH?
  }

  predicate IsDst(line: Line) {
    line.kind.DST? || line.kind.BOTH?
  }

  // ---------- decimal numbers ----------

  predicate IsDigit(c: char) {
    '0' <= c <= '9'
  }

  function Digit(d: nat): char
    requires d < 10
  {
    '0' + d as char
  }

  function Decimal(n: nat): string {
    if n < 10 then [Digit(n)] else Decimal(n / 10) + [Digit(n % 10)]
  }

  /** The leading digits of a string. */
  function Digits(s: string): (d: string)
    ensures d <= s && (|d| == |s| || !IsDigit(s[|d|])) && forall i :: 0 <= i < |d| ==> IsDigit(d[i])
  {
    if s == "" || !IsDigit(s[0]) then "" else
      var d := Digits(s[1..]);
      assert s == [s[0]] + s[1..];
      [s[0]] + d
  }

  function Value(digits: string): nat
    requires forall i :: 0 <= i < |digits| ==> IsDigit(digits[i])
  {
    if digits == "" then 0 else
      assert IsDigit(digits[|digits| - 1]);
      10 * Value(digits[..|digits| - 1]) + (digits[|digits| - 1] - '0') as nat
  }

  lemma {:induction false} DecimalValue(n: nat)
    ensures Decimal(n) != "" && forall i :: 0 <= i < |Decimal(n)| ==> IsDigit(Decimal(n)[i])
    ensures Value(Decimal(n)) == n
  {
    if n >= 10 {
      DecimalValue(n / 10);
      assert Decimal(n)[..|Decimal(n)| - 1] == Decimal(n / 10);
    } else {
      assert Decimal(n)[..0] == "";
    }
  }

  lemma {:induction false} DigitsStop(d: string, rest: string)
    requires forall i :: 0 <= i < |d| ==> IsDigit(d[i])
    requires rest == "" || !IsDigit(rest[0])
    ensures Digits(d + rest) == d
  {
    if d == "" {
      assert d + rest == rest;
    } else {
      assert (d + rest)[1..] == d[1..] + rest;
      DigitsStop(d[1..], rest);
    }
  }

  // ---------- the patterns ----------

  /** `$` matches at the end, or before one final newline. */
  function Chomp(s: string): string {
    if s != "" && s[|s| - 1] == '\n' then s[..|s| - 1] else s
  }

  /** The text after a fixed prefix, up to the end of the line; no newline may come before that. */
  function After(prefix: string, line: string): Option<string> {
    if prefix <= Chomp(line) && '\n' !in Chomp(line)[|prefix|..] then Some(Chomp(line)[|prefix|..]) else None
  }

  /** A number, followed by a fixed separator: the number and what comes after. */
  function Number(s: string, separator: string): Option<(nat, string)> {
    var d := Digits(s);
    if d != "" && separator <= s[|d|..] then Some((Value(d), s[|d| + |separator|..])) else None
  }

  datatype Header = Header(srcPos: nat, srcLen: nat, dstPos: nat, dstLen: nat)

  /** `@@ -a,b +c,d @@`, with anything after it. */
  function ChunkStart(line: string): Option<Header> {
    if !("@@ -" <= line) then None else
      match Number(line[4..], ",")
      case None => None
      case Some((a, rest1)) =>
        match Number(rest1, " +")
        case None => None
        case Some((b, rest2)) =>
          match Number(rest2, ",")
          case None => None
          case Some((c, rest3)) =>
            match Number(rest3, " @@")
            case None => None
            case Some((d, _)) => Some(Header(a, b, c, d))
  }

  // ---------- parse_patchset ----------

  /** The patches so far; `chunk` names the patch whose last chunk is the current one, if there has been a chunk. */
  datatype State = State(patches: seq<Patch>, chunk: Option<nat>)

  ghost predicate Good(s: State) {
    s.chunk.Some? ==> s.chunk.value < |s.patches| && s.patches[s.chunk.value].chunks != []
  }

  function AddChunk(p: Patch, c: Chunk): Patch {
    p.(chunks := p.chunks + [c])
  }

  function AddLine(p: Patch, line: Line): Patch
    requires p.chunks != []
  {
    var n := |p.chunks| - 1;
    p.(chunks := p.chunks[n := p.chunks[n].(lines := p.chunks[n].lines + [line])])
  }

  /** One line; None is an exception: an unknown line, or one that comes before its patch or its chunk. */
  function Step(s: State, line: string): (r: Option<State>)
    requires Good(s)
    ensures r.Some? ==> Good(r.value)
  {
    var last := |s.patches| - 1;
    if After("--- ", line).Some? then
      Some(s.(patches := s.patches + [Patch(After("--- ", line).value, "", [])]))
    else if After("+++ ", line).Some? then
      if last < 0 then None
      else Some(s.(patches := s.patches[last := s.patches[last].(dst := After("+++ ", line).value)]))
    else if ChunkStart(line).Some? then
      if last < 0 then None
      else
        var h := ChunkStart(line).value;
        Some(State(s.patches[last := AddChunk(s.patches[last], Chunk(h.srcPos, h.dstPos, []))], Some(last)))
    else if After("-", line).Some? then AppendLine(s, Line(SRC, After("-", line).value))
    else if After("+", line).Some? then AppendLine(s, Line(DST, After("+", line).value))
    else if After(" ", line).Some? then AppendLine(s, Line(BOTH, After(" ", line).value))
    else None
  }

  /** The line goes to the chunk started last, which may belong to an earlier patch. */
  function AppendLine(s: State, line: Line): (r: Option<State>)
    requires Good(s)
    ensures r.Some? ==> Good(r.value)
  {
    if s.chunk.None? then None
    else Some(s.(patches := s.patches[s.chunk.value := AddLine(s.patches[s.chunk.value], line)]))
  }

  function Scan(s: State, lines: seq<string>): (r: Option<State>)
    requires Good(s)
    ensures r.Some? ==> Good(r.value)
    decreases |lines|
  {
    if lines == [] then Some(s) else
      match Step(s, lines[0])
      case None => None
      case Some(t) => Scan(t, lines[1..])
  }

  function Parse(lines: seq<string>): Option<seq<Patch>> {
    match Scan(State([], None), lines)
    case None => None
    case Some(s) => Some(s.patches)
  }

  // ---------- content that comes after a new file name ----------

  predicate IsFileName(line: string) {
    After("--- ", line).Some?
  }

  predicate IsChunkStart(line: string) {
    After("--- ", line).None? && After("+++ ", line).None? && ChunkStart(line).Some?
  }

  /** Deleted, added or kept content. */
  predicate IsContent(line: string) {
    && After("--- ", line).None? && After("+++ ", line).None? && ChunkStart(line).None?
    && (After("-", line).Some? || After("+", line).Some? || After(" ", line).Some?)
  }

  /** Some chunk starts before the first content. */
  ghost predicate StartsChunk(lines: seq<string>) {
    forall j :: 0 <= j < |lines| && IsContent(lines[j]) ==> exists k :: 0 <= k < j && IsChunkStart(lines[k])
  }

  /** After each file name, a chunk starts before any content. */
  ghost predicate Filed(lines: seq<string>) {
    forall i :: 0 <= i < |lines| && IsFileName(lines[i]) ==> StartsChunk(lines[i + 1..])
  }

  /** One line for a reader that has no current chunk after the name of a file. */
  function StepFiled(s: State, line: string): (r: Option<State>)
    requires Good(s)
    ensures r.Some? ==> Good(r.value)
  {
    match Step(s, line)
    case None => None
    case Some(t) => Some(if IsFileName(line) then t.(chunk := None) else t)
  }

  function ScanFiled(s: State, lines: seq<string>): (r: Option<State>)
    requires Good(s)
    ensures r.Some? ==> Good(r.value)
    decreases |lines|
  {
    if lines == [] then Some(s) else
      match StepFiled(s, lines[0])
      case None => None
      case Some(t) => ScanFiled(t, lines[1..])
  }

  /** The reader that puts content into a chunk of the file named last, or else fails. */
  function ParseFiled(lines: seq<string>): Option<seq<Patch>> {
    match ScanFiled(State([], None), lines)
    case None => None
    case Some(s) => Some(s.patches)
  }

  lemma FiledStep(lines: seq<string>)
    requires lines != []
    ensures Filed(lines) <==> (IsFileName(lines[0]) ==> StartsChunk(lines[1..])) && Filed(lines[1..])
  {
    hide StartsChunk, IsFileName;
    var rest := lines[1..];
    assert forall i :: 0 <= i < |rest| ==> rest[i] == lines[i + 1] && rest[i + 1..] == lines[i + 2..];
    assert lines[0 + 1..] == rest;
    if Filed(lines) {
      forall i | 0 <= i < |rest| && IsFileName(rest[i])
        ensures StartsChunk(rest[i + 1..])
      {
        assert IsFileName(lines[i + 1]) && lines[i + 1 + 1..] == rest[i + 1..];
      }
    }
    if (IsFileName(lines[0]) ==> StartsChunk(rest)) && Filed(rest) {
      forall i | 0 <= i < |lines| && IsFileName(lines[i])
        ensures StartsChunk(lines[i + 1..])
      {
        if i > 0 {
          assert IsFileName(rest[i - 1]) && rest[i - 1 + 1..] == lines[i + 1..];
        }
      }
    }
  }

  lemma StartsChunkStep(lines: seq<string>)
    requires lines != []
    ensures StartsChunk(lines) <==> !IsContent(lines[0]) && (IsChunkStart(lines[0]) || StartsChunk(lines[1..]))
  {
    hide IsContent, IsChunkStart;
    var rest := lines[1..];
    assert forall i :: 0 <= i < |rest| ==> rest[i] == lines[i + 1];
    NotBoth(lines[0]);
    if StartsChunk(lines) && !IsChunkStart(lines[0]) {
      forall j | 0 <= j < |rest| && IsContent(rest[j])
        ensures exists k :: 0 <= k < j && IsChunkStart(rest[k])
      {
        assert IsContent(lines[j + 1]);
        var k :| 0 <= k < j + 1 && IsChunkStart(lines[k]);
        assert IsChunkStart(rest[k - 1]);
      }
    }
    if !IsContent(lines[0]) && (IsChunkStart(lines[0]) || StartsChunk(rest)) {
      forall j | 0 <= j < |lines| && IsContent(lines[j])
        ensures exists k :: 0 <= k < j && IsChunkStart(lines[k])
      {
        if !IsChunkStart(lines[0]) {
          assert IsContent(rest[j - 1]);
          var k :| 0 <= k < j - 1 && IsChunkStart(rest[k]);
          assert IsChunkStart(lines[k + 1]);
        } else {
          assert j > 0;
        }
      }
    }
  }

  lemma NotBoth(line: string)
    ensures !(IsContent(line) && IsChunkStart(line)) && !(IsFileName(line) && (IsContent(line) || IsChunkStart(line)))
  {
  }

  /** What one line does to the current chunk, and what it needs of it. */
  lemma StepChunk(s: State, line: string)
    requires Good(s)
    ensures Step(s, line).Some? && IsChunkStart(line) ==> Step(s, line).value.chunk.Some?
    ensures Step(s, line).Some? && !IsChunkStart(line) ==> Step(s, line).value.chunk == s.chunk
    ensures Step(s, line).Some? && IsContent(line) ==> s.chunk.Some?
  {
    hide After, ChunkStart;
  }

  /** A line that is no content does the same without a current chunk. */
  lemma StepForgets(s: State, line: string)
    requires Good(s) && Step(s, line).Some?
    ensures Good(s.(chunk := None))
    ensures var r := Step(s.(chunk := None), line);
            if IsContent(line) then r.None?
            else
              var t := Step(s, line).value;
              r == Some(t.(chunk := if IsChunkStart(line) then t.chunk else None))
  {
    hide After, ChunkStart;
  }

  /**
   * From where one reader has the same patches as the other and either the same current chunk or none: the second one
   * succeeds where the first does exactly if the lines to come never need the chunk it has forgotten.
   */
  lemma {:induction false} ScanFiledFrom(s: State, forgotten: bool, lines: seq<string>)
    requires Good(s) && Scan(s, lines).Some?
    ensures Good(if forgotten then s.(chunk := None) else s)
    ensures var r := ScanFiled(if forgotten then s.(chunk := None) else s, lines);
            && (r.Some? <==> (forgotten ==> StartsChunk(lines)) && Filed(lines))
            && (r.Some? ==> r.value.patches == Scan(s, lines).value.patches)
    decreases |lines|
  {
    hide StartsChunk, Filed, Step, IsContent, IsChunkStart, IsFileName;
    if lines == [] {
      NothingFiled();
    } else {
      var line, t := lines[0], Step(s, lines[0]).value;
      FiledStep(lines);
      StartsChunkStep(lines);
      StepForgets(s, line);
      NotBoth(line);
      var after := if IsFileName(line) then true else forgotten && !IsChunkStart(line);
      if !(forgotten && IsContent(line)) {
        ScanFiledFrom(t, after, lines[1..]);
      }
    }
  }

  lemma NothingFiled()
    ensures StartsChunk([]) && Filed([])
  {
  }

  /** A readable input puts all content into chunks of the file named last exactly if it is filed. */
  lemma ParseFiledIff(lines: seq<string>)
    requires Parse(lines).Some?
    ensures ParseFiled(lines) == Parse(lines) <==> Filed(lines)
    ensures ParseFiled(lines).Some? <==> Filed(lines)
  {
    hide Scan, ScanFiled, Filed, StartsChunk;
    ScanFiledFrom(State([], None), false, lines);
  }

  // ---------- what a filed input is read as ----------

  // What one line contributes: the name of a file, the positions of a chunk, or a line of content.

  ghost function NameIn(line: string): seq<string> {
    if IsFileName(line) then [Chomp(line)[4..]] else []
  }

  ghost function StartIn(line: string): seq<(nat, nat)> {
    if IsChunkStart(line) then [(ChunkStart(line).value.srcPos, ChunkStart(line).value.dstPos)] else []
  }

  ghost function ContentIn(line: string): seq<Line> {
    if IsContent(line) then
      [Line(if line[0] == '-' then SRC else if line[0] == '+' then DST else BOTH, Chomp(line)[1..])]
    else []
  }

  ghost function NamesIn(lines: seq<string>): seq<string> {
    if lines == [] then [] else NameIn(lines[0]) + NamesIn(lines[1..])
  }

  ghost function StartsIn(lines: seq<string>): seq<(nat, nat)> {
    if lines == [] then [] else StartIn(lines[0]) + StartsIn(lines[1..])
  }

  ghost function ContentsIn(lines: seq<string>): seq<Line> {
    if lines == [] then [] else ContentIn(lines[0]) + ContentsIn(lines[1..])
  }

  // The same of patches.

  ghost function Names(patches: seq<Patch>): seq<string> {
    seq(|patches|, i requires 0 <= i < |patches| => patches[i].src)
  }

  ghost function ChunkStarts(chunks: seq<Chunk>): seq<(nat, nat)> {
    seq(|chunks|, i requires 0 <= i < |chunks| => (chunks[i].srcPos, chunks[i].dstPos))
  }

  ghost function ChunkContents(chunks: seq<Chunk>): seq<Line> {
    if chunks == [] then [] else ChunkContents(chunks[..|chunks| - 1]) + chunks[|chunks| - 1].lines
  }

  ghost function Starts(patches: seq<Patch>): seq<(nat, nat)> {
    if patches == [] then [] else Starts(patches[..|patches| - 1]) + ChunkStarts(patches[|patches| - 1].chunks)
  }

  ghost function Contents(patches: seq<Patch>): seq<Line> {
    if patches == [] then [] else Contents(patches[..|patches| - 1]) + ChunkContents(patches[|patches| - 1].chunks)
  }

  ghost predicate Grown(before: seq<Patch>, after: seq<Patch>, names: seq<string>, starts: seq<(nat, nat)>,
                        contents: seq<Line>) {
    && Names(after) == Names(before) + names && Starts(after) == Starts(before) + starts
    && Contents(after) == Contents(before) + contents
  }

  lemma NewPatchGrows(patches: seq<Patch>, name: string)
    ensures Grown(patches, patches + [Patch(name, "", [])], [name], [], [])
  {
    var more := patches + [Patch(name, "", [])];
    assert more[..|more| - 1] == patches;
    assert ChunkStarts([]) == [] && ChunkContents([]) == [];
  }

  /** The last patch is replaced by one whose chunks hold more. */
  lemma LastPatchGrows(patches: seq<Patch>, p: Patch, starts: seq<(nat, nat)>, contents: seq<Line>)
    requires patches != [] && p.src == patches[|patches| - 1].src
    requires ChunkStarts(p.chunks) == ChunkStarts(patches[|patches| - 1].chunks) + starts
    requires ChunkContents(p.chunks) == ChunkContents(patches[|patches| - 1].chunks) + contents
    ensures Grown(patches, patches[|patches| - 1 := p], [], starts, contents)
  {
    hide ChunkStarts, ChunkContents;
    var n := |patches| - 1;
    var after := patches[n := p];
    assert after[..n] == patches[..n] && after[n] == p;
    assert Names(after) == Names(patches) + [];
    assert Starts(after) == Starts(patches[..n]) + ChunkStarts(p.chunks);
    assert Contents(after) == Contents(patches[..n]) + ChunkContents(p.chunks);
  }

  lemma SameChunksGrow(patches: seq<Patch>, name: string)
    requires patches != []
    ensures var n := |patches| - 1; Grown(patches, patches[n := patches[n].(dst := name)], [], [], [])
  {
    var n := |patches| - 1;
    hide Grown, ChunkStarts, ChunkContents;
    NothingMore(patches[n].chunks);
    LastPatchGrows(patches, patches[n].(dst := name), [], []);
  }

  lemma NothingMore(chunks: seq<Chunk>)
    ensures ChunkStarts(chunks) + [] == ChunkStarts(chunks) && ChunkContents(chunks) + [] == ChunkContents(chunks)
  {
  }

  lemma ChunkGrows(patches: seq<Patch>, c: Chunk)
    requires patches != [] && c.lines == []
    ensures var n := |patches| - 1;
            Grown(patches, patches[n := AddChunk(patches[n], c)], [], [(c.srcPos, c.dstPos)], [])
  {
    var p := patches[|patches| - 1];
    assert (p.chunks + [c])[..|p.chunks|] == p.chunks;
    assert ChunkStarts(p.chunks + [c]) == ChunkStarts(p.chunks) + [(c.srcPos, c.dstPos)];
    hide Grown;
    LastPatchGrows(patches, AddChunk(p, c), [(c.srcPos, c.dstPos)], []);
  }

  lemma LineGrows(patches: seq<Patch>, line: Line)
    requires patches != [] && patches[|patches| - 1].chunks != []
    ensures var n := |patches| - 1; Grown(patches, patches[n := AddLine(patches[n], line)], [], [], [line])
  {
    var p := patches[|patches| - 1];
    var k := |p.chunks| - 1;
    var q := AddLine(p, line);
    assert q.chunks[..k] == p.chunks[..k];
    assert ChunkStarts(q.chunks) == ChunkStarts(p.chunks) + [];
    assert ChunkContents(q.chunks) == ChunkContents(p.chunks[..k]) + (p.chunks[k].lines + [line]);
    hide Grown;
    LastPatchGrows(patches, q, [], [line]);
  }

  /** In the reader that forgets, the current chunk is the last one of the last patch. */
  ghost predicate AtLast(s: State) {
    s.chunk.Some? ==> s.chunk.value == |s.patches| - 1
  }

  lemma AfterText(prefix: string, line: string)
    requires After(prefix, line).Some?
    ensures |prefix| <= |Chomp(line)| && After(prefix, line).value == Chomp(line)[|prefix|..] && prefix <= line
  {
  }

  lemma StepGrows(s: State, line: string)
    requires Good(s) && AtLast(s) && StepFiled(s, line).Some?
    ensures AtLast(StepFiled(s, line).value)
    ensures Grown(s.patches, StepFiled(s, line).value.patches, NameIn(line), StartIn(line), ContentIn(line))
  {
    var t := StepFiled(s, line).value;
    if IsFileName(line) {
      AfterText("--- ", line);
      NewPatchGrows(s.patches, After("--- ", line).value);
    } else if After("+++ ", line).Some? {
      SameChunksGrow(s.patches, After("+++ ", line).value);
    } else if ChunkStart(line).Some? {
      var h := ChunkStart(line).value;
      ChunkGrows(s.patches, Chunk(h.srcPos, h.dstPos, []));
    } else {
      ContentStep(s, line);
      LineGrows(s.patches, ContentIn(line)[0]);
    }
    hide After, Chomp, ChunkStart, Grown;
  }

  lemma ContentStep(s: State, line: string)
    requires Good(s) && AtLast(s) && Step(s, line).Some?
    requires After("--- ", line).None? && After("+++ ", line).None? && ChunkStart(line).None?
    ensures IsContent(line) && |ContentIn(line)| == 1 && s.chunk.Some? && !IsFileName(line)
    ensures Step(s, line) == AppendLine(s, ContentIn(line)[0])
  {
    hide Chomp, ChunkStart;
    if After("-", line).Some? {
      AfterText("-", line);
    } else if After("+", line).Some? {
      AfterText("+", line);
    } else {
      AfterText(" ", line);
    }
  }

  lemma {:induction false} ScanGrows(s: State, lines: seq<string>)
    requires Good(s) && AtLast(s) && ScanFiled(s, lines).Some?
    ensures Grown(s.patches, ScanFiled(s, lines).value.patches, NamesIn(lines), StartsIn(lines), ContentsIn(lines))
    decreases |lines|
  {
    hide StepFiled, Names, Starts, Contents, NameIn, StartIn, ContentIn;
    if lines != [] {
      StepGrows(s, lines[0]);
      ScanGrows(StepFiled(s, lines[0]).value, lines[1..]);
    }
  }

  /**
   * Nothing is lost, repeated or reordered: the patches have the names of the files in order, their chunks the
   * positions of the chunk headers in order, and all their lines together are the lines of content in order.
   */
  lemma FiledInOrder(lines: seq<string>)
    requires Parse(lines).Some? && Filed(lines)
    ensures var patches := Parse(lines).value;
            && Names(patches) == NamesIn(lines) && Starts(patches) == StartsIn(lines)
            && Contents(patches) == ContentsIn(lines)
  {
    hide Scan, ScanFiled, Filed, NamesIn, StartsIn, ContentsIn;
    ParseFiledIff(lines);
    ScanGrows(State([], None), lines);
  }

  method ParsePatchset(lines: seq<string>) returns (r: Option<seq<Patch>>)
    ensures r == Parse(lines)
  {
    var s := State([], None);
    var i := 0;
    while i < |lines|
      invariant i <= |lines| && Good(s)
      invariant Scan(s, lines[i..]) == Scan(State([], None), lines)
    {
      assert lines[i..][0] == lines[i] && lines[i..][1..] == lines[i + 1..];
      var ok;
      s, ok := ParseLine(s, lines[i]);
      if !ok {
        return None;
      }
      i := i + 1;
    }
    r := Some(s.patches);
  }

  method ParseLine(s: State, line: string) returns (t: State, ok: bool)
    requires Good(s)
    ensures Step(s, line) == if ok then Some(t) else None
    ensures ok ==> Good(t)
  {
    t, ok := s, true;
    var patches, last := s.patches, |s.patches| - 1;
    var m := After("--- ", line);
    if m.Some? {
      t := t.(patches := patches + [Patch(m.value, "", [])]);
      return;
    }
    m := After("+++ ", line);
    if m.Some? {
      if last < 0 {
        return t, false;
      }
      t := t.(patches := patches[last := patches[last].(dst := m.value)]);
      return;
    }
    var h := ChunkStart(line);
    if h.Some? {
      if last < 0 {
        return t, false;
      }
      t := State(patches[last := AddChunk(patches[last], Chunk(h.value.srcPos, h.value.dstPos, []))], Some(last));
      return;
    }
    var kind := SRC;
    m := After("-", line);
    if m.None? {
      kind, m := DST, After("+", line);
    }
    if m.None? {
      kind, m := BOTH, After(" ", line);
    }
    if m.None? || s.chunk.None? {
      return t, false;
    }
    var k := s.chunk.value;
    t := t.(patches := patches[k := AddLine(patches[k], Line(kind, m.value))]);
  }

  // ---------- write ----------

  function Mark(kind: Kind): string {
    match kind
    case SRC => "-"
    case DST => "+"
    case BOTH => " "
  }

  function LineText(line: Line): string {
    Mark(line.kind) + line.text + "\n"
  }

  function SrcLines(lines: seq<Line>): seq<Line> {
    if lines == [] then [] else
      SrcLines(lines[..|lines| - 1]) + if IsSrc(lines[|lines| - 1]) then [lines[|lines| - 1]] else []
  }

  function DstLines(lines: seq<Line>): seq<Line> {
    if lines == [] then [] else
      DstLines(lines[..|lines| - 1]) + if IsDst(lines[|lines| - 1]) then [lines[|lines| - 1]] else []
  }

  function HeaderText(h: Header): string {
    "@@ -" + Decimal(h.srcPos) + "," + Decimal(h.srcLen) + " +" + Decimal(h.dstPos) + "," + Decimal(h.dstLen) + " @@\n"
  }

  function HeaderOf(c: Chunk): Header {
    Header(c.srcPos, |SrcLines(c.lines)|, c.dstPos, |DstLines(c.lines)|)
  }

  function LinesText(lines: seq<Line>): seq<string> {
    if lines == [] then [] else LinesText(lines[..|lines| - 1]) + [LineText(lines[|lines| - 1])]
  }

  function ChunksText(chunks: seq<Chunk>): seq<string> {
    if chunks == [] then [] else
      var c := chunks[|chunks| - 1];
      ChunksText(chunks[..|chunks| - 1]) + ([HeaderText(HeaderOf(c))] + LinesText(c.lines))
  }

  function PatchText(p: Patch): seq<string> {
    ["--- " + p.src + "\n", "+++ " + p.dst + "\n"] + ChunksText(p.chunks)
  }

  /** The lines of the file a patch set is written to. */
  function Text(patches: seq<Patch>): seq<string> {
    if patches == [] then [] else Text(patches[..|patches| - 1]) + PatchText(patches[|patches| - 1])
  }

  method SrcOf(lines: seq<Line>) returns (src: seq<Line>)
    ensures src == SrcLines(lines)
  {
    src := [];
    for i := 0 to |lines|
      invariant src == SrcLines(lines[..i])
    {
      assert lines[..i + 1][..i] == lines[..i];
      if IsSrc(lines[i]) {
        src := src + [lines[i]];
      }
    }
    assert lines[..|lines|] == lines;
  }

  method DstOf(lines: seq<Line>) returns (dst: seq<Line>)
    ensures dst == DstLines(lines)
  {
    dst := [];
    for i := 0 to |lines|
      invariant dst == DstLines(lines[..i])
    {
      assert lines[..i + 1][..i] == lines[..i];
      if IsDst(lines[i]) {
        dst := dst + [lines[i]];
      }
    }
    assert lines[..|lines|] == lines;
  }

  method WriteChunk(c: Chunk) returns (f: seq<string>)
    ensures f == [HeaderText(HeaderOf(c))] + LinesText(c.lines)
  {
    var src := SrcOf(c.lines);
    var dst := DstOf(c.lines);
    f := [HeaderText(Header(c.srcPos, |src|, c.dstPos, |dst|))];
    for i := 0 to |c.lines|
      invariant f == [HeaderText(HeaderOf(c))] + LinesText(c.lines[..i])
    {
      assert c.lines[..i + 1][..i] == c.lines[..i];
      f := f + [LineText(c.lines[i])];
    }
    assert c.lines[..|c.lines|] == c.lines;
  }

  method WritePatch(p: Patch) returns (f: seq<string>)
    ensures f == PatchText(p)
  {
    hide HeaderText, LinesText, HeaderOf;
    f := ["--- " + p.src + "\n", "+++ " + p.dst + "\n"];
    for i := 0 to |p.chunks|
      invariant f == ["--- " + p.src + "\n", "+++ " + p.dst + "\n"] + ChunksText(p.chunks[..i])
    {
      assert p.chunks[..i + 1][..i] == p.chunks[..i];
      var g := WriteChunk(p.chunks[i]);
      assert ChunksText(p.chunks[..i + 1]) == ChunksText(p.chunks[..i]) + g;
      f := f + g;
    }
    assert p.chunks[..|p.chunks|] == p.chunks;
  }

  // ---------- reading back one written line ----------

  ghost predicate OneLine(t: string) {
    '\n' !in t
  }

  /** Written out, the line is not mistaken for the name of a file. */
  ghost predicate Plain(line: Line) {
    (line.kind.SRC? ==> !("-- " <= line.text)) && (line.kind.DST? ==> !("++ " <= line.text))
  }

  /** The pattern matches one line, with or without its newline, and takes all the text after the prefix. */
  lemma AfterIff(prefix: string, line: string, text: string)
    requires OneLine(prefix)
    ensures After(prefix, line) == Some(text) <==>
            OneLine(text) && (line == prefix + text || line == prefix + text + "\n")
  {
    if line == prefix + text && OneLine(text) {
      assert Chomp(line) == line;
    }
    if line == prefix + text + "\n" {
      assert Chomp(line) == prefix + text;
    }
    if After(prefix, line) == Some(text) {
      assert Chomp(line) == prefix + text;
      assert line != Chomp(line) ==> line == Chomp(line) + "\n";
    }
  }

  lemma AfterPrefix(prefix: string, text: string)
    requires OneLine(text)
    ensures After(prefix, prefix + text + "\n") == Some(text)
  {
    assert Chomp(prefix + text + "\n") == prefix + text;
    assert (prefix + text)[|prefix|..] == text;
  }

  lemma AfterOther(prefix: string, line: string, i: nat)
    requires i < |prefix| && (i >= |line| || prefix[i] != line[i])
    ensures After(prefix, line) == None
  {
  }

  lemma StepSource(s: State, text: string)
    requires Good(s) && OneLine(text)
    ensures Step(s, "--- " + text + "\n") == Some(s.(patches := s.patches + [Patch(text, "", [])]))
  {
    AfterPrefix("--- ", text);
  }

  lemma StepDestination(s: State, text: string)
    requires Good(s) && OneLine(text) && s.patches != []
    ensures var last := |s.patches| - 1;
            Step(s, "+++ " + text + "\n") == Some(s.(patches := s.patches[last := s.patches[last].(dst := text)]))
  {
    AfterPrefix("+++ ", text);
    AfterOther("--- ", "+++ " + text + "\n", 0);
  }

  lemma NumberRead(n: nat, separator: string, rest: string)
    requires separator != "" && !IsDigit(separator[0])
    ensures Number(Decimal(n) + separator + rest, separator) == Some((n, rest))
  {
    hide Decimal, Value, Digits;
    var d := Decimal(n);
    DecimalValue(n);
    assert d + separator + rest == d + (separator + rest);
    DigitsStop(d, separator + rest);
    assert (d + (separator + rest))[|d|..] == separator + rest;
    assert (d + (separator + rest))[|d| + |separator|..] == rest;
  }

  lemma DecimalExample()
    ensures Decimal(0) == "0" && Decimal(1203) == "1203"
  {
    assert Decimal(1) == "1";
    assert Decimal(12) == Decimal(1) + "2";
    assert Decimal(120) == Decimal(12) + "0";
    assert Decimal(1203) == Decimal(120) + "3";
  }

  /** The four numbers of a header, in their places; anything may follow. */
  lemma ChunkStartRead(a: nat, b: nat, c: nat, d: nat, rest: string)
    ensures ChunkStart("@@ -" + Decimal(a) + "," + Decimal(b) + " +" + Decimal(c) + "," + Decimal(d) + " @@" + rest)
            == Some(Header(a, b, c, d))
  {
    hide Decimal, Number;
    var t4 := Decimal(d) + " @@" + rest;
    var t3 := Decimal(c) + "," + t4;
    var t2 := Decimal(b) + " +" + t3;
    var t1 := Decimal(a) + "," + t2;
    NumberRead(d, " @@", rest);
    NumberRead(c, ",", t4);
    NumberRead(b, " +", t3);
    NumberRead(a, ",", t2);
    var p3 := "@@ -" + Decimal(a) + "," + Decimal(b) + " +";
    Regroup(p3 + Decimal(c) + ",", Decimal(d), " @@", rest);
    Regroup(p3, Decimal(c), ",", t4);
    Regroup("@@ -" + Decimal(a) + ",", Decimal(b), " +", t3);
    Regroup("@@ -", Decimal(a), ",", t2);
    assert ("@@ -" + t1)[4..] == t1;
  }

  lemma Regroup(a: string, b: string, c: string, d: string)
    ensures a + b + c + d == a + (b + c + d)
  {
  }

  lemma HeaderRead(h: Header)
    ensures ChunkStart(HeaderText(h)) == Some(h)
  {
    hide Decimal, ChunkStart;
    ChunkStartRead(h.srcPos, h.srcLen, h.dstPos, h.dstLen, "\n");
    assert HeaderText(h) == "@@ -" + Decimal(h.srcPos) + "," + Decimal(h.srcLen) + " +" + Decimal(h.dstPos) + ","
                            + Decimal(h.dstLen) + " @@" + "\n";
  }

  lemma StepHeader(s: State, h: Header)
    requires Good(s) && s.patches != []
    ensures var last := |s.patches| - 1;
            Step(s, HeaderText(h))
            == Some(State(s.patches[last := AddChunk(s.patches[last], Chunk(h.srcPos, h.dstPos, []))], Some(last)))
  {
    hide ChunkStart, Decimal;
    HeaderRead(h);
    var t := HeaderText(h);
    assert t[0] == '@';
    AfterOther("--- ", t, 0);
    AfterOther("+++ ", t, 0);
  }

  lemma StepLine(s: State, line: Line)
    requires Good(s) && OneLine(line.text) && Plain(line)
    ensures Step(s, LineText(line)) == AppendLine(s, line)
  {
    var t := LineText(line);
    AfterPrefix(Mark(line.kind), line.text);
    assert ChunkStart(t) == None by { assert t[0] != '@'; }
    match line.kind {
      case SRC =>
        NotAFileName("--- ", "-", "-- ", line.text);
        AfterOther("+++ ", t, 0);
      case DST =>
        AfterOther("--- ", t, 0);
        NotAFileName("+++ ", "+", "++ ", line.text);
        AfterOther("-", t, 0);
      case BOTH =>
        AfterOther("--- ", t, 0);
        AfterOther("+++ ", t, 0);
        AfterOther("-", t, 0);
        AfterOther("+", t, 0);
    }
  }

  lemma NotAFileName(prefix: string, mark: string, rest: string, text: string)
    requires prefix == mark + rest && |mark| == 1 && OneLine(text) && !(rest <= text)
    ensures After(prefix, mark + text + "\n") == None
  {
    assert Chomp(mark + text + "\n") == mark + text;
    assert (mark + text)[1..] == text && prefix[1..] == rest;
  }

  // ---------- content under the wrong file ----------

  lemma FiveSteps(lines: seq<string>, s0: State, s1: State, s2: State, s3: State, s4: State, s5: State)
    requires |lines| == 5 && Good(s0) && Good(s1) && Good(s2) && Good(s3) && Good(s4) && Good(s5)
    requires Step(s0, lines[0]) == Some(s1) && Step(s1, lines[1]) == Some(s2) && Step(s2, lines[2]) == Some(s3)
    requires Step(s3, lines[3]) == Some(s4) && Step(s4, lines[4]) == Some(s5)
    ensures Scan(s0, lines) == Some(s5)
  {
    hide Step, Good;
    assert lines[1..][1..] == lines[2..] && lines[2..][1..] == lines[3..] && lines[3..][1..] == lines[4..];
    assert lines[4..] == [lines[4]];
    ScanOne(s4, lines[4]);
    assert Scan(s3, lines[3..]) == Scan(s4, lines[4..]);
    assert Scan(s2, lines[2..]) == Scan(s3, lines[3..]);
    assert Scan(s1, lines[1..]) == Scan(s2, lines[2..]);
  }

  function SourceLine(a: string): string {
    "--- " + a + "\n"
  }

  function DestinationLine(b: string): string {
    "+++ " + b + "\n"
  }

  // The first three lines of a patch set.

  lemma FirstLine(a: string)
    requires OneLine(a)
    ensures Step(State([], None), SourceLine(a)) == Some(State([Patch(a, "", [])], None))
  {
    StepSource(State([], None), a);
    hide Step, OneLine;
    var none: seq<Patch> := [];
    assert none + [Patch(a, "", [])] == [Patch(a, "", [])];
  }

  lemma SecondLine(p: Patch, b: string)
    requires OneLine(b)
    ensures Step(State([p], None), DestinationLine(b)) == Some(State([p.(dst := b)], None))
  {
    StepDestination(State([p], None), b);
    hide Step, OneLine;
    assert [p][0 := p.(dst := b)] == [p.(dst := b)];
  }

  lemma ThirdLine(p: Patch, h: Header)
    requires p.chunks == []
    ensures Step(State([p], None), HeaderText(h))
            == Some(State([p.(chunks := [Chunk(h.srcPos, h.dstPos, [])])], Some(0)))
  {
    StepHeader(State([p], None), h);
    hide Step, HeaderText;
    var none: seq<Chunk>, c := [], Chunk(h.srcPos, h.dstPos, []);
    assert none + [c] == [c] && AddChunk(p, c) == p.(chunks := [c]);
    assert [p][0 := p.(chunks := [c])] == [p.(chunks := [c])];
  }

  /** The name of another file, and a deletion. */
  lemma LateDeletion(p: Patch, begun: Chunk, c: string, x: string)
    requires OneLine(c) && OneLine(x) && !("-- " <= x) && p.chunks == [begun] && begun.lines == []
    ensures var full := p.(chunks := [begun.(lines := [Line(SRC, x)])]);
            && Step(State([p], Some(0)), SourceLine(c)) == Some(State([p, Patch(c, "", [])], Some(0)))
            && Step(State([p, Patch(c, "", [])], Some(0)), LineText(Line(SRC, x)))
               == Some(State([full, Patch(c, "", [])], Some(0)))
            && IsFileName(SourceLine(c)) && IsContent(LineText(Line(SRC, x)))
  {
    var line, other := Line(SRC, x), Patch(c, "", []);
    StepSource(State([p], Some(0)), c);
    AfterPrefix("--- ", c);
    StepLine(State([p, other], Some(0)), line);
    DeletionIsContent(x);
    assert "-" + x + "\n" == LineText(line);
    hide Step, After, ChunkStart, LineText, IsContent;
    assert [p] + [other] == [p, other] && [] + [line] == [line];
    var full := p.(chunks := [begun.(lines := [line])]);
    assert [begun][0 := begun.(lines := [line])] == [begun.(lines := [line])];
    assert AddLine(p, line) == full && [p, other][0 := full] == [full, other];
  }

  lemma DeletionIsContent(x: string)
    requires OneLine(x) && !("-- " <= x)
    ensures IsContent("-" + x + "\n")
  {
    var t := "-" + x + "\n";
    AfterPrefix("-", x);
    NotAFileName("--- ", "-", "-- ", x);
    AfterOther("+++ ", t, 0);
    assert ChunkStart(t) == None by { assert t[0] != '@'; }
  }

  /** A file with a chunk, the name of another one, and a deletion: it is read as part of the first file's chunk. */
  lemma LateContentExample(a: string, b: string, h: Header, c: string, x: string)
    requires OneLine(a) && OneLine(b) && OneLine(c) && OneLine(x) && !("-- " <= x)
    ensures var lines := [SourceLine(a), DestinationLine(b), HeaderText(h), SourceLine(c), LineText(Line(SRC, x))];
            && Parse(lines) == Some([Patch(a, b, [Chunk(h.srcPos, h.dstPos, [Line(SRC, x)])]), Patch(c, "", [])])
            && ParseFiled(lines) == None && !Filed(lines)
  {
    hide Step, Scan, HeaderText, IsFileName, IsContent, SourceLine, DestinationLine, LineText, OneLine;
    hide Parse, ParseFiled, Filed;
    LateDeletion(Patch(a, b, [Chunk(h.srcPos, h.dstPos, [])]), Chunk(h.srcPos, h.dstPos, []), c, x);
    var lines := [SourceLine(a), DestinationLine(b), HeaderText(h), SourceLine(c), LineText(Line(SRC, x))];
    LateParse(lines, a, b, h, c, x);
    LateContent(lines);
  }

  lemma LateParse(lines: seq<string>, a: string, b: string, h: Header, c: string, x: string)
    requires |lines| == 5 && lines[0] == SourceLine(a) && lines[1] == DestinationLine(b) && lines[2] == HeaderText(h)
    requires lines[3] == SourceLine(c) && lines[4] == LineText(Line(SRC, x))
    requires OneLine(a) && OneLine(b) && OneLine(c) && OneLine(x) && !("-- " <= x)
    ensures Parse(lines) == Some([Patch(a, b, [Chunk(h.srcPos, h.dstPos, [Line(SRC, x)])]), Patch(c, "", [])])
  {
    hide Step, Scan, HeaderText, SourceLine, DestinationLine, LineText, OneLine;
    var begun, full := Chunk(h.srcPos, h.dstPos, []), Chunk(h.srcPos, h.dstPos, [Line(SRC, x)]);
    var p, q := Patch(a, b, [begun]), Patch(a, b, [full]);
    FirstLine(a);
    SecondLine(Patch(a, "", []), b);
    ThirdLine(Patch(a, b, []), h);
    LateDeletion(p, begun, c, x);
    assert p.(chunks := [begun.(lines := [Line(SRC, x)])]) == q;
    FiveSteps(lines, State([], None), State([Patch(a, "", [])], None), State([Patch(a, b, [])], None),
              State([p], Some(0)), State([p, Patch(c, "", [])], Some(0)), State([q, Patch(c, "", [])], Some(0)));
  }

  lemma LateContent(lines: seq<string>)
    requires |lines| == 5 && IsFileName(lines[3]) && IsContent(lines[4]) && Parse(lines).Some?
    ensures ParseFiled(lines) == None && !Filed(lines)
  {
    hide IsFileName, IsContent, IsChunkStart, Scan, ScanFiled;
    var rest := lines[3 + 1..];
    assert rest[0] == lines[4];
    assert !StartsChunk(rest);
    ParseFiledIff(lines);
  }

  // ---------- reading back a written patch set ----------

  lemma {:induction false} ScanConcat(s: State, a: seq<string>, b: seq<string>)
    requires Good(s)
    ensures Scan(s, a + b) == match Scan(s, a) case None => None case Some(t) => Scan(t, b)
    decreases |a|
  {
    hide Step;
    if a == [] {
      assert a + b == b;
    } else {
      assert (a + b)[0] == a[0] && (a + b)[1..] == a[1..] + b;
      if Step(s, a[0]).Some? {
        ScanConcat(Step(s, a[0]).value, a[1..], b);
      }
    }
  }

  lemma ScanOne(s: State, line: string)
    requires Good(s)
    ensures Scan(s, [line]) == Step(s, line)
  {
    hide Step;
    assert [line][1..] == [];
    if Step(s, line).Some? {
      assert Scan(Step(s, line).value, []) == Step(s, line);
    }
  }

  ghost predicate CleanLine(line: Line) {
    OneLine(line.text) && Plain(line)
  }

  ghost predicate CleanChunk(c: Chunk) {
    forall l :: l in c.lines ==> CleanLine(l)
  }

  ghost predicate CleanPatch(p: Patch) {
    OneLine(p.src) && OneLine(p.dst) && forall c :: c in p.chunks ==> CleanChunk(c)
  }

  ghost predicate Clean(patches: seq<Patch>) {
    forall p :: p in patches ==> CleanPatch(p)
  }

  ghost function AddLines(p: Patch, lines: seq<Line>): Patch
    requires p.chunks != []
  {
    var n := |p.chunks| - 1;
    p.(chunks := p.chunks[n := p.chunks[n].(lines := p.chunks[n].lines + lines)])
  }

  lemma {:induction false} ScanLines(s: State, k: nat, lines: seq<Line>)
    requires Good(s) && s.chunk == Some(k) && forall l :: l in lines ==> CleanLine(l)
    ensures Scan(s, LinesText(lines)) == Some(s.(patches := s.patches[k := AddLines(s.patches[k], lines)]))
  {
    hide Step, Scan, LineText, CleanLine;
    if lines == [] {
      assert Scan(s, []) == Some(s) by { NothingToScan(s); }
      AddNoLines(s.patches[k]);
      assert s.patches[k := s.patches[k]] == s.patches;
    } else {
      var n := |lines| - 1;
      assert forall l :: l in lines[..n] ==> l in lines;
      ScanLines(s, k, lines[..n]);
      var t := s.(patches := s.patches[k := AddLines(s.patches[k], lines[..n])]);
      ScanConcat(s, LinesText(lines[..n]), [LineText(lines[n])]);
      ScanOne(t, LineText(lines[n]));
      CleanLineParts(lines[n]);
      StepLine(t, lines[n]);
      AddLast(s.patches[k], lines);
      assert t.patches[k := AddLines(s.patches[k], lines)] == s.patches[k := AddLines(s.patches[k], lines)];
    }
  }

  lemma AddNoLines(p: Patch)
    requires p.chunks != []
    ensures AddLines(p, []) == p
  {
    var c := p.chunks[|p.chunks| - 1];
    assert c.lines + [] == c.lines;
    assert p.chunks[|p.chunks| - 1 := c] == p.chunks;
  }

  lemma NothingToScan(s: State)
    requires Good(s)
    ensures Scan(s, []) == Some(s)
  {
  }

  lemma CleanLineParts(l: Line)
    requires CleanLine(l)
    ensures OneLine(l.text) && Plain(l)
  {
  }

  lemma AddLast(p: Patch, lines: seq<Line>)
    requires p.chunks != [] && lines != []
    ensures AddLine(AddLines(p, lines[..|lines| - 1]), lines[|lines| - 1]) == AddLines(p, lines)
  {
    var n, c := |lines| - 1, p.chunks[|p.chunks| - 1];
    assert c.lines + lines[..n] + [lines[n]] == c.lines + lines;
  }

  lemma ScanChunk(s: State, c: Chunk)
    requires Good(s) && s.patches != [] && CleanChunk(c)
    ensures var last := |s.patches| - 1;
            Scan(s, [HeaderText(HeaderOf(c))] + LinesText(c.lines))
            == Some(State(s.patches[last := AddChunk(s.patches[last], c)], Some(last)))
  {
    hide Step, Scan, HeaderText, LinesText, CleanLine;
    var last := |s.patches| - 1;
    var p := s.patches[last];
    StepHeader(s, HeaderOf(c));
    ScanOne(s, HeaderText(HeaderOf(c)));
    ScanConcat(s, [HeaderText(HeaderOf(c))], LinesText(c.lines));
    var begun := AddChunk(p, Chunk(c.srcPos, c.dstPos, []));
    var t := State(s.patches[last := begun], Some(last));
    ScanLines(t, last, c.lines);
    assert [] + c.lines == c.lines;
    assert AddLines(begun, c.lines) == AddChunk(p, c);
    assert t.patches[last := AddChunk(p, c)] == s.patches[last := AddChunk(p, c)];
  }

  lemma {:induction false} ScanChunks(s: State, chunks: seq<Chunk>)
    requires Good(s) && s.patches != [] && forall c :: c in chunks ==> CleanChunk(c)
    ensures var last := |s.patches| - 1;
            var p := s.patches[last];
            Scan(s, ChunksText(chunks))
            == Some(State(s.patches[last := p.(chunks := p.chunks + chunks)],
                          if chunks == [] then s.chunk else Some(last)))
  {
    hide Scan, HeaderText, LinesText, CleanChunk;
    var last := |s.patches| - 1;
    var p := s.patches[last];
    if chunks == [] {
      NothingToScan(s);
      assert p.chunks + [] == p.chunks;
      assert s.patches[last := p] == s.patches;
    } else {
      var n := |chunks| - 1;
      assert chunks[n] in chunks && forall c :: c in chunks[..n] ==> c in chunks;
      ScanChunks(s, chunks[..n]);
      var before := p.(chunks := p.chunks + chunks[..n]);
      var t := State(s.patches[last := before], if n == 0 then s.chunk else Some(last));
      assert Good(t);
      ScanConcat(s, ChunksText(chunks[..n]), [HeaderText(HeaderOf(chunks[n]))] + LinesText(chunks[n].lines));
      ScanChunk(t, chunks[n]);
      assert p.chunks + chunks[..n] + [chunks[n]] == p.chunks + chunks;
      var after := p.(chunks := p.chunks + chunks);
      assert AddChunk(before, chunks[n]) == after && t.patches[last := after] == s.patches[last := after];
    }
  }

  lemma ScanPatch(s: State, p: Patch)
    requires Good(s) && CleanPatch(p)
    ensures Scan(s, PatchText(p))
            == Some(State(s.patches + [p], if p.chunks == [] then s.chunk else Some(|s.patches|)))
  {
    hide Scan, Step, ChunksText, CleanChunk;
    var a, b := "--- " + p.src + "\n", "+++ " + p.dst + "\n";
    var s1 := s.(patches := s.patches + [Patch(p.src, "", [])]);
    var s2 := s.(patches := s.patches + [Patch(p.src, p.dst, [])]);
    StepSource(s, p.src);
    StepDestination(s1, p.dst);
    assert s1.patches[|s.patches| := Patch(p.src, p.dst, [])] == s2.patches;
    ScanOne(s, a);
    ScanOne(s1, b);
    ScanConcat(s, [a], [b]);
    assert [a] + [b] == [a, b];
    ScanConcat(s, [a, b], ChunksText(p.chunks));
    ScanChunks(s2, p.chunks);
    assert [] + p.chunks == p.chunks;
    assert s2.patches[|s.patches| := p] == s.patches + [p];
  }

  lemma {:induction false} ScanText(patches: seq<Patch>)
    requires Clean(patches)
    ensures Scan(State([], None), Text(patches)).Some?
    ensures Scan(State([], None), Text(patches)).value.patches == patches
  {
    hide Scan, PatchText, CleanPatch;
    if patches == [] {
      NothingToScan(State([], None));
    } else {
      var n := |patches| - 1;
      assert patches[n] in patches && forall p :: p in patches[..n] ==> p in patches;
      ScanText(patches[..n]);
      ScanConcat(State([], None), Text(patches[..n]), PatchText(patches[n]));
      ScanPatch(Scan(State([], None), Text(patches[..n])).value, patches[n]);
    }
  }

  lemma ParseText(patches: seq<Patch>)
    requires Clean(patches)
    ensures Parse(Text(patches)) == Some(patches)
  {
    ScanText(patches);
  }

  // ---------- everything that is read can be written ----------

  /** A line that is not a file name is plain when it is taken as content. */
  lemma ContentIsPlain(line: string, mark: string, prefix: string, rest: string)
    requires prefix == mark + rest && |mark| == 1 && |rest| > 0
    requires After(prefix, line).None? && After(mark, line).Some?
    ensures !(rest <= After(mark, line).value)
  {
    var text := After(mark, line).value;
    assert Chomp(line) == mark + text;
    assert rest <= text ==> prefix <= mark + text;
  }

  lemma AppendClean(s: State, line: Line)
    requires Good(s) && Clean(s.patches) && CleanLine(line) && AppendLine(s, line).Some?
    ensures Clean(AppendLine(s, line).value.patches)
  {
    hide CleanLine;
    var k := s.chunk.value;
    var p := s.patches[k];
    assert CleanPatch(p) && CleanChunk(p.chunks[|p.chunks| - 1]);
    var q := AddLine(p, line);
    assert forall c :: c in q.chunks ==> c in p.chunks || c == q.chunks[|p.chunks| - 1];
    assert CleanPatch(q);
  }

  lemma FileStepClean(s: State, line: string)
    requires Good(s) && Clean(s.patches) && Step(s, line).Some?
    requires After("--- ", line).Some? || After("+++ ", line).Some? || ChunkStart(line).Some?
    ensures Clean(Step(s, line).value.patches)
  {
    hide ChunkStart, CleanChunk;
    var last := |s.patches| - 1;
    if After("--- ", line).None? {
      assert CleanPatch(s.patches[last]);
      if After("+++ ", line).None? {
        NoLinesClean(ChunkStart(line).value);
      }
    }
  }

  lemma NoLinesClean(h: Header)
    ensures CleanChunk(Chunk(h.srcPos, h.dstPos, []))
  {
  }

  lemma StepClean(s: State, line: string)
    requires Good(s) && Clean(s.patches) && Step(s, line).Some?
    ensures Clean(Step(s, line).value.patches)
  {
    if After("--- ", line).Some? || After("+++ ", line).Some? || ChunkStart(line).Some? {
      FileStepClean(s, line);
    } else if After("-", line).Some? {
      ContentIsPlain(line, "-", "--- ", "-- ");
      hide AppendLine, ChunkStart, After, Clean;
      AppendClean(s, Line(SRC, After("-", line).value));
    } else if After("+", line).Some? {
      ContentIsPlain(line, "+", "+++ ", "++ ");
      hide AppendLine, ChunkStart, After, Clean;
      AppendClean(s, Line(DST, After("+", line).value));
    } else {
      hide AppendLine, ChunkStart, After, Clean;
      AppendClean(s, Line(BOTH, After(" ", line).value));
    }
  }

  lemma {:induction false} ScanClean(s: State, lines: seq<string>)
    requires Good(s) && Clean(s.patches) && Scan(s, lines).Some?
    ensures Clean(Scan(s, lines).value.patches)
    decreases |lines|
  {
    hide Step, Clean;
    if lines != [] {
      StepClean(s, lines[0]);
      ScanClean(Step(s, lines[0]).value, lines[1..]);
    }
  }

  /** What is read, written and read again is the same, for every input that can be read at all. */
  lemma ParseTextParse(lines: seq<string>)
    requires Parse(lines).Some?
    ensures Parse(Text(Parse(lines).value)) == Parse(lines)
  {
    hide Scan, Text;
    ScanClean(State([], None), lines);
    ParseText(Parse(lines).value);
  }

  /** Writing and reading back gives the same patch set exactly if no marked content line looks like a file name. */
  lemma RoundTripIffClean(patches: seq<Patch>)
    ensures Parse(Text(patches)) == Some(patches) <==> Clean(patches)
  {
    hide Scan, Text, Clean;
    NoPatchesClean();
    if Parse(Text(patches)) == Some(patches) {
      ScanClean(State([], None), Text(patches));
    }
    if Clean(patches) {
      ParseText(patches);
    }
  }

  lemma NoPatchesClean()
    ensures Clean([])
  {
  }

  /** A deleted line whose text starts with two dashes and a space comes back as the name of a file. */
  lemma DeletedDashesAreLost()
    ensures var ps := [Patch("a", "b", [Chunk(1, 1, [Line(SRC, "-- x")])])];
            Parse(Text(ps)) != Some(ps)
  {
    var l := Line(SRC, "-- x");
    var c := Chunk(1, 1, [l]);
    var ps := [Patch("a", "b", [c])];
    assert l in c.lines && c in ps[0].chunks && ps[0] in ps;
    assert "-- " <= l.text && !CleanLine(l);
    assert !CleanChunk(c) && !CleanPatch(ps[0]) && !Clean(ps);
    RoundTripIffClean(ps);
  }

  // ---------- the counts in a written header ----------

  ghost function CountMarked(text: seq<string>, mark: char): nat {
    if text == [] then 0 else
      var last := text[|text| - 1];
      CountMarked(text[..|text| - 1], mark) + if Marked(last, mark) then 1 else 0
  }

  ghost predicate Marked(text: string, mark: char) {
    text != "" && (text[0] == mark || text[0] == ' ')
  }

  lemma LineMarked(line: Line)
    ensures Marked(LineText(line), '-') <==> IsSrc(line)
    ensures Marked(LineText(line), '+') <==> IsDst(line)
  {
    assert LineText(line)[0] == Mark(line.kind)[0];
  }

  lemma {:induction false} CountLines(lines: seq<Line>)
    ensures |SrcLines(lines)| == CountMarked(LinesText(lines), '-')
    ensures |DstLines(lines)| == CountMarked(LinesText(lines), '+')
  {
    if lines != [] {
      var before, last := lines[..|lines| - 1], lines[|lines| - 1];
      assert LinesText(lines) == LinesText(before) + [LineText(last)];
      assert SrcLines(lines) == SrcLines(before) + if IsSrc(last) then [last] else [];
      assert DstLines(lines) == DstLines(before) + if IsDst(last) then [last] else [];
      hide LinesText, SrcLines, DstLines, LineText, CountMarked, Marked;
      CountLines(before);
      LineMarked(last);
    }
  }

  /** Read back, a written header gives the positions, and the numbers of source and of destination lines below it. */
  lemma HeaderCounts(c: Chunk)
    ensures ChunkStart(HeaderText(HeaderOf(c)))
            == Some(Header(c.srcPos, CountMarked(LinesText(c.lines), '-'),
                           c.dstPos, CountMarked(LinesText(c.lines), '+')))
  {
    HeaderRead(HeaderOf(c));
    CountLines(c.lines);
  }
}
