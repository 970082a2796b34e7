/** Removing the changes of a patch set that do nothing but drop a final blank. */
module Whitespace {
  import opened Basics
  import opened Patches

  predicate IsBlank(c: char) {
    c == ' ' || c == '\t'
  }

  /** The greedy pattern leaves exactly one blank for its second group. */
  predicate OneBlankLonger(s: string, d: string) {
    s != "" && IsBlank(s[|s| - 1]) && s[..|s| - 1] == d
  }

  function Places(lines: seq<Line>, side: Line -> bool): seq<nat> {
    if lines == [] then [] else
      Places(lines[..|lines| - 1], side) + if side(lines[|lines| - 1]) then [|lines| - 1] else []
  }

  ghost predicate PlacesOk(lines: seq<Line>, side: Line -> bool, places: seq<nat>) {
    && (forall i :: 0 <= i < |places| ==> places[i] < |lines| && side(lines[places[i]]))
    && (forall i, j :: 0 <= i < j < |places| ==> places[i] < places[j])
  }

  /** The line is as it was, or it has gained one blank and belongs to the destination. */
  ghost predicate Touched(before: Line, after: Line) {
    after == before || (IsDst(before) && after.kind == before.kind && OneBlankLonger(after.text, before.text))
  }

  /** A destination line that lacks just the final blank of its source line gets it. */
  function Mend(lines: seq<Line>, s: nat, d: nat): (r: seq<Line>)
    requires s < |lines| && d < |lines|
    ensures |r| == |lines|
  {
    if OneBlankLonger(lines[s].text, lines[d].text) then lines[d := lines[d].(text := lines[s].text)] else lines
  }

  ghost predicate InRange(places: seq<nat>, n: nat) {
    forall i :: 0 <= i < |places| ==> places[i] < n
  }

  /** The first n source lines, each against the destination line of the same rank. */
  ghost function MendFirst(lines: seq<Line>, src: seq<nat>, dst: seq<nat>, n: nat): (r: seq<Line>)
    requires n <= |src| && n <= |dst| && InRange(src, |lines|) && InRange(dst, |lines|)
    ensures |r| == |lines|
  {
    if n == 0 then lines else Mend(MendFirst(lines, src, dst, n - 1), src[n - 1], dst[n - 1])
  }

  lemma {:induction false} PlacesFacts(lines: seq<Line>, side: Line -> bool)
    ensures PlacesOk(lines, side, Places(lines, side)) && InRange(Places(lines, side), |lines|)
  {
    if lines != [] {
      var n := |lines| - 1;
      PlacesFacts(lines[..n], side);
      var before := Places(lines[..n], side);
      assert Places(lines, side) == before + if side(lines[n]) then [n] else [];
      hide Places;
      assert forall i :: 0 <= i < |before| ==> lines[..n][before[i]] == lines[before[i]];
    }
  }

  /** All the pairs there are; false if some source line had no partner. */
  ghost function ChunkPass(c: Chunk): (Chunk, bool) {
    var src, dst := Places(c.lines, IsSrc), Places(c.lines, IsDst);
    PlacesFacts(c.lines, IsSrc);
    PlacesFacts(c.lines, IsDst);
    var ok := |src| <= |dst|;
    (c.(lines := MendFirst(c.lines, src, dst, if ok then |src| else |dst|)), ok)
  }

  /** Chunk after chunk, until one fails; the rest stay as they are. */
  ghost function ChunksPass(chunks: seq<Chunk>): (seq<Chunk>, bool) {
    if chunks == [] then ([], true) else
      var n := |chunks| - 1;
      var (before, ok) := ChunksPass(chunks[..n]);
      if ok then (before + [ChunkPass(chunks[n]).0], ChunkPass(chunks[n]).1) else (before + [chunks[n]], false)
  }

  ghost function PatchPass(p: Patch): (Patch, bool) {
    (p.(chunks := ChunksPass(p.chunks).0), ChunksPass(p.chunks).1)
  }

  ghost function PatchesPass(patches: seq<Patch>): (seq<Patch>, bool) {
    if patches == [] then ([], true) else
      var n := |patches| - 1;
      var (before, ok) := PatchesPass(patches[..n]);
      if ok then (before + [PatchPass(patches[n]).0], PatchPass(patches[n]).1) else (before + [patches[n]], false)
  }

  // ---------- what a chunk becomes ----------

  /** A source line and a destination line of the same rank: as many of their side come before the one as the other. */
  ghost predicate Paired(lines: seq<Line>, s: nat, d: nat) {
    && s < |lines| && d < |lines| && IsSrc(lines[s]) && IsDst(lines[d])
    && |SrcLines(lines[..s])| == |DstLines(lines[..d])|
  }

  /** The chunk has fewer destination than source lines. */
  ghost predicate Short(c: Chunk) {
    |DstLines(c.lines)| < |SrcLines(c.lines)|
  }

  /**
   * The text that the source line at s has when its pair is looked at. A context line that has already been looked at
   * as the destination of an earlier pair is read as that has left it.
   */
  ghost function Seen(before: seq<Line>, after: seq<Line>, s: nat): string
    requires s < |before| == |after|
  {
    if IsDst(before[s]) && |DstLines(before[..s])| < |SrcLines(before[..s])| then after[s].text else before[s].text
  }

  ghost predicate PairMended(before: seq<Line>, after: seq<Line>, s: nat, d: nat)
    requires s < |before| == |after| && d < |before|
  {
    var source, target := Seen(before, after, s), before[d].text;
    && after[d].kind == before[d].kind
    && after[d].text == if source == target + " " || source == target + "\t" then source else target
  }

  /** Every pair is mended, and every line that is not the destination of a pair is as it was. */
  ghost predicate LinesMended(before: seq<Line>, after: seq<Line>) {
    && |after| == |before|
    && (forall s: nat, d: nat :: Paired(before, s, d) ==> PairMended(before, after, s, d))
    && (forall k: nat :: k < |before| && (forall s: nat :: !Paired(before, s, k)) ==> after[k] == before[k])
  }

  ghost predicate ChunkMended(a: Chunk, b: Chunk) {
    b.srcPos == a.srcPos && b.dstPos == a.dstPos && LinesMended(a.lines, b.lines)
  }

  lemma {:induction false} PlacesCount(lines: seq<Line>)
    ensures |Places(lines, IsSrc)| == |SrcLines(lines)| && |Places(lines, IsDst)| == |DstLines(lines)|
  {
    if lines != [] {
      PlacesCount(lines[..|lines| - 1]);
    }
  }

  /** The lines of a side are those at its places, which increase: in order, each once. */
  lemma {:induction false} SidesInOrder(lines: seq<Line>)
    ensures var at := Places(lines, IsSrc);
            && PlacesOk(lines, IsSrc, at) && |SrcLines(lines)| == |at|
            && forall i :: 0 <= i < |at| ==> SrcLines(lines)[i] == lines[at[i]]
    ensures var at := Places(lines, IsDst);
            && PlacesOk(lines, IsDst, at) && |DstLines(lines)| == |at|
            && forall i :: 0 <= i < |at| ==> DstLines(lines)[i] == lines[at[i]]
  {
    PlacesFacts(lines, IsSrc);
    PlacesFacts(lines, IsDst);
    if lines != [] {
      SidesInOrder(lines[..|lines| - 1]);
    }
  }

  lemma {:induction false} PlaceAt(lines: seq<Line>, side: Line -> bool, k: nat)
    requires k < |lines| && side(lines[k])
    ensures var i := |Places(lines[..k], side)|;
            i < |Places(lines, side)| && Places(lines, side)[i] == k
  {
    var n := |lines| - 1;
    if k < n {
      PlaceAt(lines[..n], side, k);
      assert lines[..n][..k] == lines[..k];
    }
  }

  /** The ranks of the places are their positions in the list of places. */
  lemma PlaceRanks(lines: seq<Line>, side: Line -> bool, i: nat)
    requires i < |Places(lines, side)|
    ensures var k := Places(lines, side)[i];
            k < |lines| && side(lines[k]) && |Places(lines[..k], side)| == i
  {
    PlacesFacts(lines, side);
    var k := Places(lines, side)[i];
    PlaceAt(lines, side, k);
    hide Places;
    var j := |Places(lines[..k], side)|;
    assert Places(lines, side)[j] == k;
  }

  lemma PairedRanks(lines: seq<Line>, s: nat, d: nat)
    requires Paired(lines, s, d)
    ensures var i := |SrcLines(lines[..s])|;
            && i < |Places(lines, IsSrc)| && i < |Places(lines, IsDst)|
            && Places(lines, IsSrc)[i] == s && Places(lines, IsDst)[i] == d
  {
    hide Places;
    PlacesCount(lines[..s]);
    PlacesCount(lines[..d]);
    PlaceAt(lines, IsSrc, s);
    PlaceAt(lines, IsDst, d);
  }

  lemma RanksPaired(lines: seq<Line>, i: nat)
    requires i < |Places(lines, IsSrc)| && i < |Places(lines, IsDst)|
    ensures Paired(lines, Places(lines, IsSrc)[i], Places(lines, IsDst)[i])
    ensures |SrcLines(lines[..Places(lines, IsSrc)[i]])| == i
  {
    hide Places;
    PlaceRanks(lines, IsSrc, i);
    PlaceRanks(lines, IsDst, i);
    PlacesCount(lines[..Places(lines, IsSrc)[i]]);
    PlacesCount(lines[..Places(lines, IsDst)[i]]);
  }

  /** A place that is no destination of the pairs m to n - 1 is not changed by them. */
  lemma {:induction false} MendKeeps(lines: seq<Line>, src: seq<nat>, dst: seq<nat>, m: nat, n: nat, k: nat)
    requires m <= n <= |src| && n <= |dst| && InRange(src, |lines|) && InRange(dst, |lines|) && k < |lines|
    requires forall i :: m <= i < n ==> dst[i] != k
    ensures MendFirst(lines, src, dst, n)[k] == MendFirst(lines, src, dst, m)[k]
  {
    if m < n {
      MendKeeps(lines, src, dst, m, n - 1, k);
      hide OneBlankLonger;
    }
  }

  lemma OneBlank(s: string, d: string)
    ensures OneBlankLonger(s, d) <==> s == d + " " || s == d + "\t"
  {
    if OneBlankLonger(s, d) {
      assert s == s[..|s| - 1] + [s[|s| - 1]];
    }
  }

  lemma PairDone(lines: seq<Line>, src: seq<nat>, dst: seq<nat>, n: nat, i: nat)
    requires src == Places(lines, IsSrc) && dst == Places(lines, IsDst)
    requires InRange(src, |lines|) && InRange(dst, |lines|)
    requires i < n <= |src| && n <= |dst|
    ensures PairMended(lines, MendFirst(lines, src, dst, n), src[i], dst[i])
  {
    PlacesFacts(lines, IsDst);
    hide Places, OneBlankLonger, Seen, MendFirst;
    var before, after := MendFirst(lines, src, dst, i), MendFirst(lines, src, dst, n);
    MendNone(lines, src, dst);
    MendNext(lines, src, dst, i);
    MendKeeps(lines, src, dst, 0, i, dst[i]);
    MendKeeps(lines, src, dst, i + 1, n, dst[i]);
    SourceSeen(lines, src, dst, n, i);
    OneBlank(before[src[i]].text, lines[dst[i]].text);
  }

  lemma MendNext(lines: seq<Line>, src: seq<nat>, dst: seq<nat>, i: nat)
    requires i < |src| && i < |dst| && InRange(src, |lines|) && InRange(dst, |lines|)
    ensures MendFirst(lines, src, dst, i + 1) == Mend(MendFirst(lines, src, dst, i), src[i], dst[i])
  {
  }

  lemma MendNone(lines: seq<Line>, src: seq<nat>, dst: seq<nat>)
    requires InRange(src, |lines|) && InRange(dst, |lines|)
    ensures MendFirst(lines, src, dst, 0) == lines
  {
  }

  lemma SourceSeen(lines: seq<Line>, src: seq<nat>, dst: seq<nat>, n: nat, i: nat)
    requires src == Places(lines, IsSrc) && dst == Places(lines, IsDst)
    requires InRange(src, |lines|) && InRange(dst, |lines|)
    requires i < n <= |src| && n <= |dst|
    ensures MendFirst(lines, src, dst, i)[src[i]].text == Seen(lines, MendFirst(lines, src, dst, n), src[i])
  {
    PlacesFacts(lines, IsDst);
    PlaceRanks(lines, IsSrc, i);
    PlacesCount(lines[..src[i]]);
    var s := src[i];
    if m: nat :| m < i && dst[m] == s {
      PlaceRanks(lines, IsDst, m);
      hide Places, MendFirst;
      MendKeeps(lines, src, dst, i, n, s);
    } else {
      if IsDst(lines[s]) {
        PlaceAt(lines, IsDst, s);
      }
      hide Places, MendFirst;
      MendKeeps(lines, src, dst, 0, i, s);
      MendNone(lines, src, dst);
    }
  }

  lemma ChunkPassMends(c: Chunk)
    ensures ChunkMended(c, ChunkPass(c).0) && (ChunkPass(c).1 <==> !Short(c))
  {
    var src, dst := Places(c.lines, IsSrc), Places(c.lines, IsDst);
    PlacesFacts(c.lines, IsSrc);
    PlacesFacts(c.lines, IsDst);
    PlacesCount(c.lines);
    var n := if |src| <= |dst| then |src| else |dst|;
    var after := MendFirst(c.lines, src, dst, n);
    forall s: nat, d: nat | Paired(c.lines, s, d)
      ensures PairMended(c.lines, after, s, d)
    {
      PairedRanks(c.lines, s, d);
      PairDone(c.lines, src, dst, n, |SrcLines(c.lines[..s])|);
    }
    forall k: nat | k < |c.lines| && forall s: nat :: !Paired(c.lines, s, k)
      ensures after[k] == c.lines[k]
    {
      forall i | 0 <= i < n ensures dst[i] != k { RanksPaired(c.lines, i); }
      MendKeeps(c.lines, src, dst, 0, n, k);
    }
  }

  method FindPlaces(lines: seq<Line>, side: Line -> bool) returns (places: seq<nat>)
    ensures places == Places(lines, side)
  {
    places := [];
    for i := 0 to |lines|
      invariant places == Places(lines[..i], side)
    {
      assert lines[..i + 1][..i] == lines[..i];
      if side(lines[i]) {
        places := places + [i];
      }
    }
    assert lines[..|lines|] == lines;
  }

  method RemoveInChunk(c: Chunk) returns (c': Chunk, ok: bool)
    ensures (c', ok) == ChunkPass(c)
    ensures ChunkMended(c, c') && (ok <==> !Short(c))
  {
    ChunkPassMends(c);
    var src := FindPlaces(c.lines, IsSrc);
    var dst := FindPlaces(c.lines, IsDst);
    PlacesFacts(c.lines, IsSrc);
    PlacesFacts(c.lines, IsDst);
    hide Places, PlacesOk, LinesMended;
    var lines := c.lines;
    for i := 0 to |src|
      invariant i <= |dst| && InRange(src, |c.lines|) && InRange(dst, |c.lines|)
      invariant lines == MendFirst(c.lines, src, dst, i)
    {
      if i >= |dst| {
        return c.(lines := lines), false;
      }
      var s, d := lines[src[i]], lines[dst[i]];
      if s.text != "" && IsBlank(s.text[|s.text| - 1]) && s.text[..|s.text| - 1] == d.text {
        assert d.text + [s.text[|s.text| - 1]] == s.text;
        lines := lines[dst[i] := d.(text := d.text + [s.text[|s.text| - 1]])];
      }
    }
    return c.(lines := lines), true;
  }

  lemma {:induction false} ChunksPassStopped(chunks: seq<Chunk>, k: nat)
    requires k <= |chunks| && !ChunksPass(chunks[..k]).1
    ensures ChunksPass(chunks) == (ChunksPass(chunks[..k]).0 + chunks[k..], false)
  {
    if k == |chunks| {
      assert chunks[..k] == chunks && chunks[k..] == [];
      assert ChunksPass(chunks).0 + [] == ChunksPass(chunks).0;
    } else {
      var n, done := |chunks| - 1, ChunksPass(chunks[..k]).0;
      assert chunks[..n][..k] == chunks[..k] && chunks[..n][k..] + [chunks[n]] == chunks[k..];
      ChunksPassStopped(chunks[..n], k);
      assert done + chunks[..n][k..] + [chunks[n]] == done + chunks[k..];
    }
  }

  method RemoveInPatch(p: Patch) returns (p': Patch, ok: bool)
    ensures (p', ok) == PatchPass(p)
  {
    hide ChunkPass, ChunkMended, Short;
    var chunks := p.chunks;
    for j := 0 to |p.chunks|
      invariant |chunks| == |p.chunks| && chunks[j..] == p.chunks[j..]
      invariant ChunksPass(p.chunks[..j]) == (chunks[..j], true)
    {
      assert chunks[j] == chunks[j..][0] == p.chunks[j];
      assert p.chunks[..j + 1][..j] == p.chunks[..j];
      var c, go := RemoveInChunk(chunks[j]);
      var next := chunks[j := c];
      assert next[..j + 1] == chunks[..j] + [c] && next[j + 1..] == p.chunks[j + 1..];
      chunks := next;
      if !go {
        ChunksPassStopped(p.chunks, j + 1);
        assert chunks[..j + 1] + p.chunks[j + 1..] == chunks;
        return p.(chunks := chunks), false;
      }
    }
    assert p.chunks[..|p.chunks|] == p.chunks && chunks[..|p.chunks|] == chunks;
    return p.(chunks := chunks), true;
  }

  lemma {:induction false} PatchesPassStopped(patches: seq<Patch>, k: nat)
    requires k <= |patches| && !PatchesPass(patches[..k]).1
    ensures PatchesPass(patches) == (PatchesPass(patches[..k]).0 + patches[k..], false)
  {
    if k == |patches| {
      assert patches[..k] == patches && patches[k..] == [];
      assert PatchesPass(patches).0 + [] == PatchesPass(patches).0;
    } else {
      var n, done := |patches| - 1, PatchesPass(patches[..k]).0;
      assert patches[..n][..k] == patches[..k] && patches[..n][k..] + [patches[n]] == patches[k..];
      PatchesPassStopped(patches[..n], k);
      assert done + patches[..n][k..] + [patches[n]] == done + patches[k..];
    }
  }

  lemma NoPatchesPass(patches: seq<Patch>)
    ensures PatchesPass(patches[..0]) == (patches[..0], true)
  {
  }

  lemma NextPatchPass(patches: seq<Patch>, i: nat)
    requires i < |patches| && PatchesPass(patches[..i]).1
    ensures PatchesPass(patches[..i + 1])
            == (PatchesPass(patches[..i]).0 + [PatchPass(patches[i]).0], PatchPass(patches[i]).1)
  {
    hide PatchPass;
    assert patches[..i + 1][..i] == patches[..i];
  }

  // ---------- what the whole pass does ----------

  /** None of the first j chunks is short. */
  ghost predicate Unhindered(chunks: seq<Chunk>, j: nat) {
    forall b: nat :: b < |chunks| && b < j ==> !Short(chunks[b])
  }

  /** The pass comes to the j-th chunk of the i-th patch: no chunk before it is short. */
  ghost predicate Reached(patches: seq<Patch>, i: nat, j: nat)
    requires i < |patches|
  {
    && (forall a: nat :: a < i ==> Unhindered(patches[a].chunks, |patches[a].chunks|))
    && Unhindered(patches[i].chunks, j)
  }

  ghost predicate MendedIf(mended: bool, c: Chunk, c': Chunk) {
    if mended then ChunkMended(c, c') else c' == c
  }

  ghost predicate ChunksMended(chunks: seq<Chunk>, chunks': seq<Chunk>) {
    && |chunks'| == |chunks|
    && forall j: nat :: j < |chunks| ==> MendedIf(Unhindered(chunks, j), chunks[j], chunks'[j])
  }

  ghost predicate PatchMended(patches: seq<Patch>, i: nat, p: Patch)
    requires i < |patches|
  {
    && p.src == patches[i].src && p.dst == patches[i].dst && |p.chunks| == |patches[i].chunks|
    && forall j: nat :: j < |p.chunks| ==>
         MendedIf(Reached(patches, i, j), patches[i].chunks[j], p.chunks[j])
  }

  /** Every chunk up to the first short one, and including it, is mended; all others stay as they are. */
  ghost predicate PatchesMended(patches: seq<Patch>, patches': seq<Patch>) {
    |patches'| == |patches| && forall i: nat :: i < |patches| ==> PatchMended(patches, i, patches'[i])
  }

  lemma UnhinderedMore(chunks: seq<Chunk>, n: nat)
    requires n < |chunks|
    ensures forall j: nat :: j <= n ==> (Unhindered(chunks[..n], j) <==> Unhindered(chunks, j))
    ensures Unhindered(chunks, n + 1) <==> Unhindered(chunks, n) && !Short(chunks[n])
  {
    hide Short;
  }

  lemma LastChunkMended(chunks: seq<Chunk>, n: nat, go: bool, c: Chunk)
    requires n < |chunks| && (go <==> Unhindered(chunks, n)) && c == if go then ChunkPass(chunks[n]).0 else chunks[n]
    ensures MendedIf(Unhindered(chunks, n), chunks[n], c)
  {
    ChunkPassMends(chunks[n]);
  }

  ghost predicate NoneShort(patches: seq<Patch>) {
    forall a: nat :: a < |patches| ==> Unhindered(patches[a].chunks, |patches[a].chunks|)
  }

  lemma NothingMended()
    ensures ChunksPass([]) == ([], true) && Unhindered([], 0)
    ensures PatchesPass([]) == ([], true) && NoneShort([])
  {
  }

  lemma ChunksPassMore(chunks: seq<Chunk>, n: nat)
    requires |chunks| == n + 1
    ensures var (before, go) := ChunksPass(chunks[..n]);
            ChunksPass(chunks)
            == (before + [if go then ChunkPass(chunks[n]).0 else chunks[n]], go && ChunkPass(chunks[n]).1)
  {
    hide ChunkPass;
  }

  lemma {:induction false} ChunksPassMends(chunks: seq<Chunk>)
    ensures ChunksMended(chunks, ChunksPass(chunks).0)
    ensures ChunksPass(chunks).1 <==> Unhindered(chunks, |chunks|)
  {
    hide ChunksPass, ChunkPass, ChunkMended, Short, Unhindered, MendedIf;
    if chunks == [] {
      NothingMended();
    } else {
      var n := |chunks| - 1;
      ChunksPassMends(chunks[..n]);
      ChunksPassMore(chunks, n);
      ChunkPassMends(chunks[n]);
      UnhinderedMore(chunks, n);
      var before, out := ChunksPass(chunks[..n]).0, ChunksPass(chunks).0;
      assert Unhindered(chunks[..n], n) <==> Unhindered(chunks, n);
      LastChunkMended(chunks, n, ChunksPass(chunks[..n]).1, out[n]);
      forall j: nat | j < n
        ensures MendedIf(Unhindered(chunks, j), chunks[j], out[j])
      {
        assert chunks[..n][j] == chunks[j] && out[j] == before[j];
        assert Unhindered(chunks[..n], j) <==> Unhindered(chunks, j);
      }
    }
  }

  lemma ReachedPrefix(patches: seq<Patch>, n: nat, i: nat)
    requires i < n < |patches|
    ensures forall j: nat :: Reached(patches[..n], i, j) <==> Reached(patches, i, j)
  {
    hide Unhindered;
    var prefix := patches[..n];
    assert forall a: nat :: a <= i ==> prefix[a] == patches[a];
    forall j: nat ensures Reached(prefix, i, j) <==> Reached(patches, i, j) {
      assert Unhindered(prefix[i].chunks, j) <==> Unhindered(patches[i].chunks, j);
    }
  }

  lemma NoneShortMore(patches: seq<Patch>, n: nat)
    requires n < |patches|
    ensures forall j: nat :: Reached(patches, n, j) <==> NoneShort(patches[..n]) && Unhindered(patches[n].chunks, j)
    ensures NoneShort(patches[..n + 1]) <==>
            NoneShort(patches[..n]) && Unhindered(patches[n].chunks, |patches[n].chunks|)
  {
    hide Unhindered;
    assert forall a: nat :: a < n ==> patches[..n][a] == patches[a];
    assert forall a: nat :: a <= n ==> patches[..n + 1][a] == patches[a];
  }

  lemma PatchMendedMore(patches: seq<Patch>, n: nat, i: nat, p: Patch)
    requires i < n < |patches| && PatchMended(patches[..n], i, p)
    ensures PatchMended(patches, i, p)
  {
    ReachedPrefix(patches, n, i);
    hide Reached, MendedIf;
  }

  /** One more patch, come to if none of the chunks before it is short. */
  lemma LastPatchMended(patches: seq<Patch>, n: nat, go: bool, p: Patch)
    requires n < |patches| && (go <==> NoneShort(patches[..n]))
    requires p == if go then PatchPass(patches[n]).0 else patches[n]
    ensures PatchMended(patches, n, p)
  {
    NoneShortMore(patches, n);
    ChunksPassMends(patches[n].chunks);
    hide ChunksPass, ChunkMended, Unhindered, Reached, NoneShort;
  }

  lemma PatchesPassMore(patches: seq<Patch>, n: nat)
    requires |patches| == n + 1
    ensures var (before, go) := PatchesPass(patches[..n]);
            PatchesPass(patches)
            == (before + [if go then PatchPass(patches[n]).0 else patches[n]], go && PatchPass(patches[n]).1)
  {
    hide PatchPass;
  }

  lemma {:induction false} PatchesPassMends(patches: seq<Patch>)
    ensures PatchesMended(patches, PatchesPass(patches).0)
    ensures PatchesPass(patches).1 <==> NoneShort(patches)
  {
    hide PatchesPass, ChunksPass, PatchMended, Unhindered, NoneShort, Reached, ChunksMended;
    if patches == [] {
      NothingMended();
    } else {
      var n := |patches| - 1;
      PatchesPassMends(patches[..n]);
      PatchesPassMore(patches, n);
      ChunksPassMends(patches[n].chunks);
      NoneShortMore(patches, n);
      var before, out := PatchesPass(patches[..n]).0, PatchesPass(patches).0;
      LastPatchMended(patches, n, PatchesPass(patches[..n]).1, out[n]);
      assert patches[..n + 1] == patches;
      forall i: nat | i < n
        ensures PatchMended(patches, i, out[i])
      {
        assert out[i] == before[i];
        PatchMendedMore(patches, n, i, before[i]);
      }
    }
  }

  /** The chunks of all patches in order; nothing more is done once a chunk has stopped early. */
  method RemoveInPatches(original: seq<Patch>) returns (patchset: seq<Patch>)
    ensures patchset == PatchesPass(original).0
    ensures PatchesMended(original, patchset)
  {
    hide PatchPass, PatchesPass, PatchesMended;
    PatchesPassMends(original);
    NoPatchesPass(original);
    patchset := original;
    for i := 0 to |original|
      invariant |patchset| == |original| && patchset[i..] == original[i..]
      invariant PatchesPass(original[..i]) == (patchset[..i], true)
    {
      assert patchset[i] == patchset[i..][0] == original[i];
      var p, ok := RemoveInPatch(patchset[i]);
      var next := patchset[i := p];
      assert next[..i + 1] == patchset[..i] + [p] && next[i + 1..] == original[i + 1..];
      NextPatchPass(original, i);
      patchset := next;
      if !ok {
        PatchesPassStopped(original, i + 1);
        assert patchset[..i + 1] + original[i + 1..] == patchset;
        return;
      }
    }
    assert original[..|original|] == original && patchset[..|original|] == patchset;
  }

  method RemoveTrailingWhitespaceChanges(input: seq<string>) returns (r: Option<seq<Patch>>)
    ensures r == match Parse(input) case None => None case Some(patches) => Some(PatchesPass(patches).0)
    ensures r.Some? ==> PatchesMended(Parse(input).value, r.value)
  {
    hide Parse, PatchesPass, PatchesMended;
    r := ParsePatchset(input);
    if r.Some? {
      var patchset := RemoveInPatches(r.value);
      r := Some(patchset);
    }
  }

  // ---------- what the pass may change ----------

  /** Each line keeps its kind and is untouched or, on the destination side, one blank longer. */
  lemma {:induction false} MendTouches(lines: seq<Line>, src: seq<nat>, dst: seq<nat>, n: nat)
    requires n <= |src| && n <= |dst| && PlacesOk(lines, IsSrc, src) && PlacesOk(lines, IsDst, dst)
    requires InRange(src, |lines|) && InRange(dst, |lines|)
    ensures forall k :: 0 <= k < |lines| ==> Touched(lines[k], MendFirst(lines, src, dst, n)[k])
    ensures forall k :: n <= k < |dst| ==> MendFirst(lines, src, dst, n)[dst[k]] == lines[dst[k]]
  {
    if n > 0 {
      MendTouches(lines, src, dst, n - 1);
    }
  }

  /** Without context lines the partner of a source line becomes equal to it iff it lacks just a final blank. */
  lemma PairWithoutContext(a: Chunk, b: Chunk, s: nat, d: nat)
    requires ChunkMended(a, b) && Paired(a.lines, s, d) && forall k :: 0 <= k < |a.lines| ==> !a.lines[k].kind.BOTH?
    ensures var source, target := a.lines[s].text, a.lines[d].text;
            && b.lines[s] == a.lines[s]
            && (b.lines[d] != a.lines[d] <==> source == target + " " || source == target + "\t")
            && (b.lines[d] != a.lines[d] ==> b.lines[d] == Line(DST, source))
  {
    assert forall r: nat :: !Paired(a.lines, r, s);
    assert PairMended(a.lines, b.lines, s, d);
  }

  /** A deleted line with a final blank, and the same without, in the first chunk: the blank is put back. */
  lemma BlankPutBack(text: string, more: seq<Patch>)
    ensures var lines := [Line(SRC, text + " "), Line(DST, text)];
            var after := PatchesPass([Patch("a", "b", [Chunk(1, 1, lines)])] + more).0;
            && |after| > 0 && |after[0].chunks| == 1
            && after[0].chunks[0].lines == [Line(SRC, text + " "), Line(DST, text + " ")]
  {
    var lines := [Line(SRC, text + " "), Line(DST, text)];
    var c := Chunk(1, 1, lines);
    var patches := [Patch("a", "b", [c])] + more;
    PatchesPassMends(patches);
    hide PatchesPass;
    assert Reached(patches, 0, 0);
    var after := PatchesPass(patches).0[0].chunks[0];
    assert ChunkMended(c, after);
    assert lines[..0] == [] && lines[..1] == [lines[0]] && SrcLines([]) == [] == DstLines([]);
    assert DstLines([lines[0]]) == [];
    assert Paired(lines, 0, 1);
    PairWithoutContext(c, after, 0, 1);
    assert text + " " != text;
    assert after.lines == [after.lines[0], after.lines[1]];
  }

  /** Without context lines the pass does exactly what it is for: every pair is mended on the destination side. */
  lemma {:induction false} MendWithoutContext(lines: seq<Line>, src: seq<nat>, dst: seq<nat>, n: nat, i: nat)
    requires i < n <= |src| && n <= |dst| && PlacesOk(lines, IsSrc, src) && PlacesOk(lines, IsDst, dst)
    requires InRange(src, |lines|) && InRange(dst, |lines|)
    requires forall k :: 0 <= k < |lines| ==> !lines[k].kind.BOTH?
    ensures var s, d, r := lines[src[i]], lines[dst[i]], MendFirst(lines, src, dst, n);
            && r[src[i]] == s
            && r[dst[i]] == if OneBlankLonger(s.text, d.text) then d.(text := s.text) else d
  {
    MendTouches(lines, src, dst, n - 1);
    MendTouches(lines, src, dst, n);
    hide OneBlankLonger;
    assert IsSrc(lines[src[i]]) && IsDst(lines[dst[i]]);
    if i < n - 1 {
      MendWithoutContext(lines, src, dst, n - 1, i);
      assert dst[i] < dst[n - 1];
    } else {
      assert IsSrc(lines[src[n - 1]]);
    }
  }

  ghost predicate SameChunk(a: Chunk, b: Chunk) {
    && a.srcPos == b.srcPos && a.dstPos == b.dstPos && |a.lines| == |b.lines|
    && forall k :: 0 <= k < |a.lines| ==> Touched(a.lines[k], b.lines[k])
  }

  ghost predicate SameChunks(a: seq<Chunk>, b: seq<Chunk>) {
    |a| == |b| && forall k :: 0 <= k < |a| ==> SameChunk(a[k], b[k])
  }

  /** The same files, chunks, positions, kinds and order; destination lines may have gained one blank each. */
  ghost predicate SameButBlanks(a: seq<Patch>, b: seq<Patch>) {
    |a| == |b| && forall k :: 0 <= k < |a| ==>
      a[k].src == b[k].src && a[k].dst == b[k].dst && SameChunks(a[k].chunks, b[k].chunks)
  }

  lemma {:induction false} ChunksPassTouches(chunks: seq<Chunk>)
    ensures SameChunks(chunks, ChunksPass(chunks).0)
  {
    if chunks != [] {
      var n := |chunks| - 1;
      ChunksPassTouches(chunks[..n]);
      ChunkPassTouches(chunks[n]);
    }
  }

  lemma ChunkPassTouches(c: Chunk)
    ensures SameChunk(c, ChunkPass(c).0) && SameChunk(c, c)
  {
    var src, dst := Places(c.lines, IsSrc), Places(c.lines, IsDst);
    PlacesFacts(c.lines, IsSrc);
    PlacesFacts(c.lines, IsDst);
    MendTouches(c.lines, src, dst, if |src| <= |dst| then |src| else |dst|);
  }

  lemma {:induction false} PassTouchesBlanksOnly(patches: seq<Patch>)
    ensures SameButBlanks(patches, PatchesPass(patches).0)
  {
    if patches != [] {
      hide ChunksPass;
      var n := |patches| - 1;
      PassTouchesBlanksOnly(patches[..n]);
      ChunksPassTouches(patches[n].chunks);
      SameItself(patches[n].chunks);
    }
  }

  lemma SameItself(chunks: seq<Chunk>)
    ensures SameChunks(chunks, chunks)
  {
  }
}
