/**
 * The BFD section overlay (examples/gen_decompile.rs:380-464) and the simpler copy of
 * examples/httpd_decompile.rs:1603-1638.
 */
module Overlay {
  import opened LittleEndian

  // The oracle's loader serves each address from the first section of the chain that contains
  // it.  The overlay reaches the same bytes by interval arithmetic on the claimed stretches.

  const USIZE_MAX: nat := 0xffff_ffff_ffff_ffff

  datatype Kind = NoBits | SymTab | StrTab | Other
  datatype Header = Header(kind: Kind, alloc: bool, namedStrtab: bool, addr: nat, size: nat, offset: nat) {
    /** `start.saturating_add(size)` on 64-bit addresses. */
    function End(): nat {
      if addr + size <= USIZE_MAX then addr + size else USIZE_MAX
    }
    predicate Contains(x: nat) { addr <= x < End() }
    predicate Served() { !alloc && kind != NoBits }
    /** The whole section lies inside a file of `length` bytes. */
    predicate Backed(length: nat) { offset + size <= length }
    /** The file byte for address `x`. */
    function Src(x: nat): nat requires addr <= x { offset + (x - addr) }
  }

  /** The fields are 64-bit words. */
  ghost predicate Sized(h: Header) {
    h.addr <= USIZE_MAX && h.size <= USIZE_MAX && h.offset <= USIZE_MAX
  }

  predicate InChain(h: Header, index: nat, shstrndx: nat) {
    h.size != 0 && index != shstrndx && h.kind != SymTab && !(h.kind == StrTab && h.namedStrtab)
  }

  /** bfd chain membership, in table order. */
  function Chain(headers: seq<Header>, shstrndx: nat, n: nat): (chain: seq<Header>)
    requires n <= |headers|
  {
    if n == 0 then [] else
      var rest := Chain(headers, shstrndx, n - 1);
      if InChain(headers[n - 1], n - 1, shstrndx) then rest + [headers[n - 1]] else rest
  }

  method BuildChain(headers: seq<Header>, shstrndx: nat) returns (chain: seq<Header>)
    ensures chain == Chain(headers, shstrndx, |headers|)
  {
    chain := [];
    for n := 0 to |headers|
      invariant chain == Chain(headers, shstrndx, n)
    {
      if InChain(headers[n], n, shstrndx) { chain := chain + [headers[n]]; }
    }
  }

  lemma {:induction false} ChainSized(headers: seq<Header>, shstrndx: nat, n: nat)
    requires n <= |headers| && forall h | h in headers :: Sized(h)
    ensures forall h | h in Chain(headers, shstrndx, n) :: Sized(h) && h.size != 0
    decreases n
  {
    if n > 0 { ChainSized(headers, shstrndx, n - 1); }
  }

  // ---------- The pointwise lookup ----------

  ghost predicate Claimed(chain: seq<Header>, n: nat, x: nat)
    requires n <= |chain|
  {
    exists k | 0 <= k < n :: chain[k].Contains(x)
  }

  /** Index of the first of the first `n` chain sections that contains `x`; `n` when none does. */
  ghost function FirstMatch(chain: seq<Header>, n: nat, x: nat): (k: nat)
    requires n <= |chain|
    ensures k <= n && (k < n ==> chain[k].Contains(x)) && forall j | 0 <= j < k :: !chain[j].Contains(x)
    decreases n
  {
    if n == 0 then 0 else
      var k := FirstMatch(chain, n - 1, x);
      if k < n - 1 then k else if chain[n - 1].Contains(x) then n - 1 else n
  }

  /** End of the maximal unclaimed stretch of section `k` that starts at or before `x`:
      `overlay_copy` moves such a stretch in one piece. */
  ghost function PieceEnd(chain: seq<Header>, k: nat, x: nat): (hi: nat)
    requires k < |chain| && x < chain[k].End()
    ensures x < hi <= chain[k].End()
    decreases chain[k].End() - x
  {
    if x + 1 == chain[k].End() || Claimed(chain, k, x + 1) then x + 1 else PieceEnd(chain, k, x + 1)
  }

  lemma {:induction false} PieceEndIs(chain: seq<Header>, k: nat, x: nat, hi: nat)
    requires k < |chain| && x < hi <= chain[k].End()
    requires forall y | x < y < hi :: !Claimed(chain, k, y)
    requires hi == chain[k].End() || Claimed(chain, k, hi)
    ensures PieceEnd(chain, k, x) == hi
    decreases hi - x
  {
    if x + 1 < hi { PieceEndIs(chain, k, x + 1, hi); }
  }

  /** The byte the overlay of the first `n` sections leaves at `x`: the first match's file byte
      when that section is non-ALLOC and file-backed and the piece around `x` lies inside the
      file, and the byte that was there otherwise. */
  ghost function Overlaid(chain: seq<Header>, n: nat, buffer: seq<Byte>, x: nat, before: Byte): Byte
    requires n <= |chain|
  {
    var k := FirstMatch(chain, n, x);
    if k < n && chain[k].Served() && chain[k].Src(PieceEnd(chain, k, x)) <= |buffer|
    then buffer[chain[k].Src(x)] else before
  }

  // ---------- Claimed intervals ----------

  ghost predicate SortedByStart(claimed: seq<(nat, nat)>) {
    forall i, j | 0 <= i < j < |claimed| :: claimed[i].0 <= claimed[j].0
  }

  ghost predicate Covers(claimed: seq<(nat, nat)>, x: nat) {
    exists c | c in claimed :: c.0 <= x < c.1
  }

  /** `claimed` is sorted and covers exactly the union of the first `n` sections.  Only a
      saturated section can be empty, and then it starts at the last address. */
  ghost predicate Tracks(claimed: seq<(nat, nat)>, chain: seq<Header>, n: nat)
    requires n <= |chain|
  {
    && SortedByStart(claimed)
    && (forall x: nat :: Covers(claimed, x) <==> Claimed(chain, n, x))
    && (forall c | c in claimed :: c.0 < c.1 || c.0 == USIZE_MAX)
  }

  /** The interval goes in after every one that starts at or before it. */
  method InsertByStart(claimed: seq<(nat, nat)>, start: nat, end: nat) returns (out: seq<(nat, nat)>)
    requires SortedByStart(claimed)
    ensures SortedByStart(out) && forall c :: c in out <==> c in claimed || c == (start, end)
  {
    var position := 0;
    while position < |claimed| && claimed[position].0 <= start
      invariant 0 <= position <= |claimed|
      invariant forall i | 0 <= i < position :: claimed[i].0 <= start
    {
      position := position + 1;
    }
    out := claimed[..position] + [(start, end)] + claimed[position..];
    assert claimed == claimed[..position] + claimed[position..];
    InsertedSorted(claimed, position, (start, end));
  }

  lemma InsertedSorted(claimed: seq<(nat, nat)>, position: nat, c: (nat, nat))
    requires position <= |claimed| && SortedByStart(claimed)
    requires forall i | 0 <= i < position :: claimed[i].0 <= c.0
    requires position < |claimed| ==> c.0 < claimed[position].0
    ensures SortedByStart(claimed[..position] + [c] + claimed[position..])
  {
    var out := claimed[..position] + [c] + claimed[position..];
    forall i, j | 0 <= i < j < |out| ensures out[i].0 <= out[j].0 {
      var x, y := if i < position then i else i - 1, if j < position then j else j - 1;
      if i != position { assert out[i] == claimed[x]; }
      if j != position { assert out[j] == claimed[y]; }
      if position < |claimed| && position <= y { assert claimed[position].0 <= claimed[y].0; }
    }
  }

  method Claim(claimed: seq<(nat, nat)>, start: nat, end: nat, ghost chain: seq<Header>, ghost n: nat)
    returns (out: seq<(nat, nat)>)
    requires n < |chain| && Tracks(claimed, chain, n)
    requires start == chain[n].addr && end == chain[n].End() && (start < end || start == USIZE_MAX)
    ensures Tracks(out, chain, n + 1)
  {
    out := InsertByStart(claimed, start, end);
    ClaimTracks(claimed, out, start, end, chain, n);
  }

  /** Inserting section `n`'s interval in start order tracks one more section. */
  lemma ClaimTracks(claimed: seq<(nat, nat)>, out: seq<(nat, nat)>, start: nat, end: nat, chain: seq<Header>, n: nat)
    requires n < |chain| && Tracks(claimed, chain, n) && SortedByStart(out)
    requires start == chain[n].addr && end == chain[n].End() && (start < end || start == USIZE_MAX)
    requires forall c :: c in out <==> c in claimed || c == (start, end)
    ensures Tracks(out, chain, n + 1)
  {
    forall x: nat ensures Covers(out, x) <==> Claimed(chain, n + 1, x) {
      assert Covers(claimed, x) <==> Claimed(chain, n, x);
      assert chain[n].Contains(x) <==> start <= x < end;
      assert Covers(out, x) <==> Covers(claimed, x) || start <= x < end by {
        if start <= x < end { assert (start, end) in out; }
      }
    }
  }

  // ---------- Writing ----------

  /** Image bytes in [lo, hi) come from the file, all others are unchanged; nothing at all
      happens when the piece reaches past the file. */
  ghost predicate CopiedPiece(h: Header, buffer: seq<Byte>, before: seq<Byte>, after: seq<Byte>, lo: nat, hi: nat)
    requires h.addr <= lo <= hi
  {
    && |after| == |before|
    && forall x | 0 <= x < |before| ::
         after[x] == if lo <= x < hi && h.Src(hi) <= |buffer| then buffer[h.Src(x)] else before[x]
  }

  /** `overlay_copy`; false stands for the panic when the piece's end in the file overflows. */
  method OverlayCopy(h: Header, buffer: seq<Byte>, image: array<Byte>, lo: nat, hi: nat) returns (ok: bool)
    requires h.addr <= lo <= hi <= h.End()
    modifies image
    ensures ok <==> h.Src(hi) <= USIZE_MAX
    ensures if ok then CopiedPiece(h, buffer, old(image[..]), image[..], lo, hi) else image[..] == old(image[..])
  {
    var srcLo, srcHi := h.Src(lo), h.Src(hi);
    if srcHi > USIZE_MAX { return false; }
    if srcHi > |buffer| { return true; }
    if lo >= image.Length { return true; }
    var dstEnd := if hi <= image.Length then hi else image.Length;
    var src := buffer[srcLo..srcHi];
    forall x | lo <= x < dstEnd {
      image[x] := src[x - lo];
    }
    ok := true;
  }

  /** No piece of section `n` that starts below `limit` ends past the largest file offset. */
  ghost predicate InRange(chain: seq<Header>, n: nat, limit: nat)
    requires n < |chain|
  {
    forall x: nat | x < limit && chain[n].Contains(x) && !Claimed(chain, n, x) :: chain[n].Src(PieceEnd(chain, n, x)) <= USIZE_MAX
  }

  /** The whole table can be overlaid without an overflow. */
  ghost predicate AllInRange(chain: seq<Header>) {
    forall n | 0 <= n < |chain| && chain[n].Served() :: InRange(chain, n, chain[n].End())
  }

  /** Progress of one section's cursor walk: everything below `cursor` is final. */
  ghost predicate ServedTo(chain: seq<Header>, n: nat, buffer: seq<Byte>, start: seq<Byte>, now: seq<Byte>, cursor: nat)
    requires n < |chain|
  {
    && |now| == |start|
    && forall x | 0 <= x < |start| ::
         now[x] == if x < cursor && chain[n].Contains(x) && !Claimed(chain, n, x) && chain[n].Src(PieceEnd(chain, n, x)) <= |buffer|
                   then buffer[chain[n].Src(x)] else start[x]
  }

  /** One piece: an unclaimed stretch [lo, hi) bounded by a claim or by the section's end. */
  lemma PieceServed(chain: seq<Header>, n: nat, buffer: seq<Byte>, start: seq<Byte>, before: seq<Byte>, after: seq<Byte>,
                    lo: nat, hi: nat, next: nat)
    requires n < |chain| && chain[n].addr <= lo < hi <= chain[n].End() && hi <= next
    requires ServedTo(chain, n, buffer, start, before, lo)
    requires CopiedPiece(chain[n], buffer, before, after, lo, hi)
    requires forall y | lo <= y < hi :: !Claimed(chain, n, y)
    requires hi == chain[n].End() || Claimed(chain, n, hi)
    requires forall y | hi <= y < next && y < chain[n].End() :: Claimed(chain, n, y)
    ensures ServedTo(chain, n, buffer, start, after, next)
  {
    forall x | lo <= x < hi ensures PieceEnd(chain, n, x) == hi { PieceEndIs(chain, n, x, hi); }
  }

  lemma PieceInRange(chain: seq<Header>, n: nat, lo: nat, hi: nat, next: nat)
    requires n < |chain| && chain[n].addr <= lo < hi <= chain[n].End() && hi <= next
    requires InRange(chain, n, lo)
    requires forall y | lo <= y < hi :: !Claimed(chain, n, y)
    requires hi == chain[n].End() || Claimed(chain, n, hi)
    requires forall y | hi <= y < next && y < chain[n].End() :: Claimed(chain, n, y)
    ensures if chain[n].Src(hi) <= USIZE_MAX then InRange(chain, n, next) else !InRange(chain, n, chain[n].End())
  {
    forall x | lo <= x < hi ensures PieceEnd(chain, n, x) == hi { PieceEndIs(chain, n, x, hi); }
    assert chain[n].Contains(lo) && !Claimed(chain, n, lo);
  }

  /** One piece of section `n`, copied. */
  method ServePiece(chain: seq<Header>, n: nat, buffer: seq<Byte>, image: array<Byte>, lo: nat, hi: nat, ghost next: nat, ghost start: seq<Byte>)
    returns (ok: bool)
    requires n < |chain| && chain[n].addr <= lo < hi <= chain[n].End() && hi <= next
    requires ServedTo(chain, n, buffer, start, image[..], lo) && InRange(chain, n, lo)
    requires forall y | lo <= y < hi :: !Claimed(chain, n, y)
    requires hi == chain[n].End() || Claimed(chain, n, hi)
    requires forall y | hi <= y < next && y < chain[n].End() :: Claimed(chain, n, y)
    modifies image
    ensures if ok then ServedTo(chain, n, buffer, start, image[..], next) && InRange(chain, n, next)
      else !InRange(chain, n, chain[n].End())
  {
    ghost var before := image[..];
    ok := OverlayCopy(chain[n], buffer, image, lo, hi);
    PieceInRange(chain, n, lo, hi, next);
    if ok { PieceServed(chain, n, buffer, start, before, image[..], lo, hi, next); }
  }

  /** The walk over the claimed intervals for one served section. */
  method ServeSection(chain: seq<Header>, n: nat, buffer: seq<Byte>, image: array<Byte>, claimed: seq<(nat, nat)>) returns (ok: bool)
    requires n < |chain| && Tracks(claimed, chain, n)
    modifies image
    ensures ok <==> InRange(chain, n, chain[n].End())
    ensures ok ==> ServedTo(chain, n, buffer, old(image[..]), image[..], chain[n].End())
  {
    var h := chain[n];
    var start, end := h.addr, h.End();
    var cursor := start;
    var i := 0;
    while i < |claimed|
      invariant 0 <= i <= |claimed| && start <= cursor
      invariant ServedTo(chain, n, buffer, old(image[..]), image[..], cursor) && InRange(chain, n, cursor)
      invariant forall j | 0 <= j < i :: claimed[j].1 <= cursor
    {
      var (cStart, cEnd) := claimed[i];
      assert claimed[i] in claimed;
      if cStart >= end { break; }
      ClaimFacts(chain, n, claimed, i, cursor);
      if cEnd > cursor {
        var hi := if cStart < end then cStart else end;
        if cursor < hi {
          ok := ServePiece(chain, n, buffer, image, cursor, hi, cEnd, old(image[..]));
          if !ok { return; }
        }
      }
      cursor := if cEnd > cursor then cEnd else cursor;
      if cursor >= end { break; }
      i := i + 1;
    }
    if cursor < end {
      Unclaimed(chain, n, claimed, i, cursor, end);
      ok := ServePiece(chain, n, buffer, image, cursor, end, end, old(image[..]));
      if !ok { return; }
    }
    ok := true;
  }

  /** Below the next claim's start nothing is claimed from the cursor on; from it to its end everything is. */
  lemma ClaimFacts(chain: seq<Header>, n: nat, claimed: seq<(nat, nat)>, i: nat, cursor: nat)
    requires n < |chain| && Tracks(claimed, chain, n) && i < |claimed|
    requires forall j | 0 <= j < i :: claimed[j].1 <= cursor
    ensures forall y: nat | cursor <= y < claimed[i].0 :: !Claimed(chain, n, y)
    ensures forall y: nat | claimed[i].0 <= y < claimed[i].1 :: Claimed(chain, n, y)
  {
    forall y: nat | cursor <= y < claimed[i].0 ensures !Claimed(chain, n, y) {
      assert !Covers(claimed, y);
    }
    forall y: nat | claimed[i].0 <= y < claimed[i].1 ensures Claimed(chain, n, y) {
      assert claimed[i] in claimed && Covers(claimed, y);
    }
  }

  lemma Unclaimed(chain: seq<Header>, n: nat, claimed: seq<(nat, nat)>, i: nat, cursor: nat, end: nat)
    requires n < |chain| && Tracks(claimed, chain, n) && i <= |claimed|
    requires forall j | 0 <= j < i :: claimed[j].1 <= cursor
    requires i < |claimed| ==> claimed[i].0 >= end
    ensures forall y: nat | cursor <= y < end :: !Claimed(chain, n, y)
  {
    forall y: nat | cursor <= y < end ensures !Claimed(chain, n, y) {
      assert !Covers(claimed, y);
    }
  }

  /** `overlay_bfd_nonalloc_sections`: it panics exactly when some piece overflows; otherwise,
      for every address, the final byte is the one the pointwise first-match lookup serves. */
  method OverlayBfdNonallocSections(headers: seq<Header>, shstrndx: nat, buffer: seq<Byte>, image: array<Byte>) returns (ok: bool)
    requires forall h | h in headers :: Sized(h)
    modifies image
    ensures ok <==> AllInRange(Chain(headers, shstrndx, |headers|))
    ensures var chain := Chain(headers, shstrndx, |headers|);
            ok ==> forall x | 0 <= x < image.Length :: image[x] == Overlaid(chain, |chain|, buffer, x, old(image[x]))
  {
    var chain := BuildChain(headers, shstrndx);
    ChainSized(headers, shstrndx, |headers|);
    var claimed: seq<(nat, nat)> := [];
    for n := 0 to |chain|
      invariant Tracks(claimed, chain, n)
      invariant forall k | 0 <= k < n && chain[k].Served() :: InRange(chain, k, chain[k].End())
      invariant forall x | 0 <= x < image.Length :: image[x] == Overlaid(chain, n, buffer, x, old(image[x]))
    {
      var h := chain[n];
      assert h in chain;
      ghost var before := image[..];
      if h.Served() {
        ok := ServeSection(chain, n, buffer, image, claimed);
        if !ok { return; }
      }
      forall x | 0 <= x < image.Length ensures image[x] == Overlaid(chain, n + 1, buffer, x, old(image[x])) {
        OverlaidStep(chain, n, buffer, before, image[..], x, old(image[x]));
      }
      claimed := Claim(claimed, h.addr, h.End(), chain, n);
    }
    ok := true;
  }

  /** With every served section inside a file of addressable length nothing overflows. */
  lemma BackedInRange(chain: seq<Header>, buffer: seq<Byte>)
    requires FileBacked(chain, buffer) && |buffer| <= USIZE_MAX
    ensures AllInRange(chain)
  {
    forall n | 0 <= n < |chain| && chain[n].Served() ensures InRange(chain, n, chain[n].End()) {
      assert chain[n] in chain && chain[n].Backed(|buffer|);
      forall x: nat | x < chain[n].End() && chain[n].Contains(x) ensures chain[n].Src(PieceEnd(chain, n, x)) <= USIZE_MAX {
        assert PieceEnd(chain, n, x) <= chain[n].End() <= chain[n].addr + chain[n].size;
      }
    }
  }

  lemma OverlaidStep(chain: seq<Header>, n: nat, buffer: seq<Byte>, before: seq<Byte>, after: seq<Byte>, x: nat, first: Byte)
    requires n < |chain| && x < |before| == |after|
    requires before[x] == Overlaid(chain, n, buffer, x, first)
    requires chain[n].Served() ==> ServedTo(chain, n, buffer, before, after, chain[n].End())
    requires !chain[n].Served() ==> after == before
    ensures after[x] == Overlaid(chain, n + 1, buffer, x, first)
  {
    assert Claimed(chain, n, x) <==> FirstMatch(chain, n, x) < n;
  }

  // ---------- Against the simple lookup ----------

  ghost predicate FileBacked(chain: seq<Header>, buffer: seq<Byte>) {
    forall h | h in chain && h.Served() :: h.Backed(|buffer|)
  }

  /** What the loader would serve: the first match's own file byte, with nothing about pieces. */
  ghost function FirstServes(chain: seq<Header>, buffer: seq<Byte>, x: nat, before: Byte): Byte {
    var k := FirstMatch(chain, |chain|, x);
    if k < |chain| && chain[k].Served() && chain[k].Src(x) < |buffer| then buffer[chain[k].Src(x)] else before
  }

  /** With every served section inside the file, the overlay is the first-match lookup. */
  lemma OverlayIsFirstMatch(chain: seq<Header>, buffer: seq<Byte>, x: nat, before: Byte)
    requires FileBacked(chain, buffer)
    ensures Overlaid(chain, |chain|, buffer, x, before) == FirstServes(chain, buffer, x, before)
  {
    var k := FirstMatch(chain, |chain|, x);
    if k < |chain| && chain[k].Served() {
      assert chain[k] in chain;
      assert PieceEnd(chain, k, x) <= chain[k].End() <= chain[k].addr + chain[k].size;
    }
  }

  /** In general the two agree at `x`, whatever byte was there, exactly when the piece around
      `x` fits in the file or the file has no byte for `x`: a truncated piece is dropped whole. */
  lemma OverlayExactly(chain: seq<Header>, buffer: seq<Byte>, x: nat)
    ensures (forall before: Byte :: Overlaid(chain, |chain|, buffer, x, before) == FirstServes(chain, buffer, x, before))
       <==> (var k := FirstMatch(chain, |chain|, x);
             k < |chain| && chain[k].Served() ==>
               chain[k].Src(PieceEnd(chain, k, x)) <= |buffer| || chain[k].Src(x) >= |buffer|)
  {
    var k := FirstMatch(chain, |chain|, x);
    if k < |chain| && chain[k].Served() && chain[k].Src(x) < |buffer| && chain[k].Src(PieceEnd(chain, k, x)) > |buffer| {
      var other: Byte := if buffer[chain[k].Src(x)] == 0 then 1 else 0;
      assert Overlaid(chain, |chain|, buffer, x, other) == other != FirstServes(chain, buffer, x, other);
    }
  }

  /** A two-byte section with one byte left in the file: the byte it has is not served. */
  lemma TruncatedPieceDropped()
    ensures var chain := [Header(Other, false, false, 0, 2, 0)];
            Overlaid(chain, 1, [7], 0, 0) == 0 && FirstServes(chain, [7], 0, 0) == 7
  {
    var chain := [Header(Other, false, false, 0, 2, 0)];
    assert FirstMatch(chain, 1, 0) == 0;
    PieceEndIs(chain, 0, 0, 2);
  }

  // ---------- The blind copy ----------

  /** The section is copied: it is exposed and lies inside the file. */
  predicate Copied(h: Header, length: nat) {
    h.Served() && h.Backed(length)
  }

  /** Index + 1 of the last copied section among the first `n` that contains `x`; 0 when none. */
  ghost function LastCopied(chain: seq<Header>, n: nat, length: nat, x: nat): (k: nat)
    requires n <= |chain|
    ensures k <= n && (k > 0 ==> Copied(chain[k - 1], length) && chain[k - 1].Contains(x))
    ensures forall j | k <= j < n :: !(Copied(chain[j], length) && chain[j].Contains(x))
    decreases n
  {
    if n == 0 then 0
    else if Copied(chain[n - 1], length) && chain[n - 1].Contains(x) then n
    else LastCopied(chain, n - 1, length, x)
  }

  ghost function Blind(chain: seq<Header>, n: nat, buffer: seq<Byte>, x: nat, before: Byte): Byte
    requires n <= |chain|
  {
    var k := LastCopied(chain, n, |buffer|, x);
    if k > 0 then buffer[chain[k - 1].Src(x)] else before
  }

  method BlindCopy(h: Header, buffer: seq<Byte>, image: array<Byte>)
    requires image.Length <= USIZE_MAX
    modifies image
    ensures forall x | 0 <= x < image.Length ::
      image[x] == if h.Backed(|buffer|) && h.Contains(x) then buffer[h.Src(x)] else old(image[x])
  {
    if h.offset + h.size > |buffer| || h.addr >= image.Length { return; }
    var src := buffer[h.offset..h.offset + h.size];
    var dstEnd := if h.addr + |src| <= image.Length then h.addr + |src| else image.Length;
    forall x | h.addr <= x < dstEnd {
      image[x] := src[x - h.addr];
    }
  }

  /** One more exposed section overrides what the earlier ones left, unless it leaves the file. */
  lemma BlindStep(chain: seq<Header>, k: nat, buffer: seq<Byte>, x: nat, before: Byte)
    requires k < |chain| && chain[k].Served()
    ensures Blind(chain, k + 1, buffer, x, before) ==
      if chain[k].Backed(|buffer|) && chain[k].Contains(x) then buffer[chain[k].Src(x)] else Blind(chain, k, buffer, x, before)
  {
  }

  /** The httpd driver's copy loop: every exposed section in table order, overlaps ignored and
      sections outside the file skipped. */
  method OverlayBlind(headers: seq<Header>, shstrndx: nat, buffer: seq<Byte>, image: array<Byte>)
    requires image.Length <= USIZE_MAX
    modifies image
    ensures var chain := Chain(headers, shstrndx, |headers|);
            forall x | 0 <= x < image.Length :: image[x] == Blind(chain, |chain|, buffer, x, old(image[x]))
  {
    ghost var chain := Chain(headers, shstrndx, |headers|);
    for n := 0 to |headers|
      invariant Chain(headers, shstrndx, n) <= chain
      invariant forall x | 0 <= x < image.Length ::
                  image[x] == Blind(chain, |Chain(headers, shstrndx, n)|, buffer, x, old(image[x]))
    {
      var h := headers[n];
      ChainGrows(headers, shstrndx, n + 1);
      ghost var k := |Chain(headers, shstrndx, n)|;
      if !InChain(h, n, shstrndx) { continue; }
      assert Chain(headers, shstrndx, n + 1)[k] == h;
      if !h.Served() { continue; }
      BlindCopy(h, buffer, image);
      forall x | 0 <= x < image.Length ensures image[x] == Blind(chain, k + 1, buffer, x, old(image[x])) {
        BlindStep(chain, k, buffer, x, old(image[x]));
      }
    }
    assert Chain(headers, shstrndx, |headers|) == chain;
  }

  lemma {:induction false} ChainGrows(headers: seq<Header>, shstrndx: nat, n: nat)
    requires n <= |headers|
    ensures Chain(headers, shstrndx, n) <= Chain(headers, shstrndx, |headers|)
    decreases |headers| - n
  {
    if n < |headers| {
      ChainGrows(headers, shstrndx, n + 1);
      assert Chain(headers, shstrndx, n) <= Chain(headers, shstrndx, n + 1);
    }
  }

  /** No address of the image below `size` lies in a copied section and in an earlier chain section. */
  ghost predicate CopiedAlone(chain: seq<Header>, length: nat, size: nat) {
    forall k, x: nat | 0 <= k < |chain| && x < size && Copied(chain[k], length) && chain[k].Contains(x) :: !Claimed(chain, k, x)
  }

  /** The blind copy takes every byte from the first match, when that is copied at all, if and
      only if no copied section overlaps an earlier chain section inside the image. */
  lemma BlindAgrees(chain: seq<Header>, length: nat, size: nat)
    ensures CopiedAlone(chain, length, size) <==>
            forall x: nat | x < size ::
              var k := FirstMatch(chain, |chain|, x);
              LastCopied(chain, |chain|, length, x) == if k < |chain| && Copied(chain[k], length) then k + 1 else 0
  {
    if CopiedAlone(chain, length, size) {
      forall x: nat | x < size
        ensures var k := FirstMatch(chain, |chain|, x);
                LastCopied(chain, |chain|, length, x) == if k < |chain| && Copied(chain[k], length) then k + 1 else 0
      {
        var k, last := FirstMatch(chain, |chain|, x), LastCopied(chain, |chain|, length, x);
        if last > 0 { assert !Claimed(chain, last - 1, x); }
      }
    } else {
      var k, x: nat :| 0 <= k < |chain| && x < size && Copied(chain[k], length) && chain[k].Contains(x) && Claimed(chain, k, x);
      assert FirstMatch(chain, |chain|, x) < k < LastCopied(chain, |chain|, length, x);
    }
  }

  /** Under that condition both copies leave the same byte, except that the blind copy skips a
      truncated section as a whole where the overlay still serves the pieces that fit. */
  lemma BlindImage(chain: seq<Header>, buffer: seq<Byte>, size: nat, x: nat, before: Byte)
    requires CopiedAlone(chain, |buffer|, size) && x < size
    ensures var k := FirstMatch(chain, |chain|, x);
      Blind(chain, |chain|, buffer, x, before) ==
        if k < |chain| && chain[k].Served() && !chain[k].Backed(|buffer|) then before
        else Overlaid(chain, |chain|, buffer, x, before)
  {
    BlindAgrees(chain, |buffer|, size);
    var k := FirstMatch(chain, |chain|, x);
    if k < |chain| { assert PieceEnd(chain, k, x) <= chain[k].End() <= chain[k].addr + chain[k].size; }
  }

  // ---------- Over the raw section table ----------

  /** The loader sees section `i`: it is not empty, not the section-name table, not a symbol
      table and not the string table of that name. */
  ghost predicate Exposed(headers: seq<Header>, shstrndx: nat, i: nat) {
    && i < |headers| && headers[i].size != 0 && i != shstrndx
    && headers[i].kind != SymTab && !(headers[i].kind == StrTab && headers[i].namedStrtab)
  }

  /** The bytes of section `i` lie at `x` in memory, below the top of the address space. */
  ghost predicate LiesAt(headers: seq<Header>, i: nat, x: nat) {
    i < |headers| && headers[i].addr <= x < headers[i].addr + headers[i].size && x < USIZE_MAX
  }

  ghost predicate HasBytes(h: Header) {
    !h.alloc && h.kind != NoBits
  }

  /** An exposed section is in the chain, behind the exposed sections before it in the table. */
  lemma {:induction false} ExposedInChain(headers: seq<Header>, shstrndx: nat, n: nat, i: nat)
    requires i < n <= |headers| && Exposed(headers, shstrndx, i)
    ensures var at := |Chain(headers, shstrndx, i)|;
      at < |Chain(headers, shstrndx, n)| && Chain(headers, shstrndx, n)[at] == headers[i]
    decreases n
  {
    if i < n - 1 { ExposedInChain(headers, shstrndx, n - 1, i); }
  }

  /** Nothing else is. */
  lemma {:induction false} ChainIsExposed(headers: seq<Header>, shstrndx: nat, n: nat, k: nat) returns (i: nat)
    requires n <= |headers| && k < |Chain(headers, shstrndx, n)|
    ensures i < n && Exposed(headers, shstrndx, i)
    ensures k == |Chain(headers, shstrndx, i)| && Chain(headers, shstrndx, n)[k] == headers[i]
    decreases n
  {
    if k < |Chain(headers, shstrndx, n - 1)| { i := ChainIsExposed(headers, shstrndx, n - 1, k); } else { i := n - 1; }
  }

  lemma {:induction false} ChainLonger(headers: seq<Header>, shstrndx: nat, i: nat, j: nat)
    requires i <= j <= |headers|
    ensures |Chain(headers, shstrndx, i)| <= |Chain(headers, shstrndx, j)|
    decreases j
  {
    if i < j { ChainLonger(headers, shstrndx, i, j - 1); }
  }

  /** The section-name table and the loader's own sections never matter: tables that differ in
      nothing else give both overlays the same chain, hence the same image. */
  lemma {:induction false} HiddenSectionsIgnored(headers: seq<Header>, headers': seq<Header>, shstrndx: nat, n: nat)
    requires n <= |headers| == |headers'|
    requires forall i: nat | i < |headers| && headers[i] != headers'[i] :: !Exposed(headers, shstrndx, i) && !Exposed(headers', shstrndx, i)
    ensures Chain(headers, shstrndx, n) == Chain(headers', shstrndx, n)
    decreases n
  {
    if n > 0 {
      HiddenSectionsIgnored(headers, headers', shstrndx, n - 1);
      assert headers[n - 1] == headers'[n - 1] || (!Exposed(headers, shstrndx, n - 1) && !Exposed(headers', shstrndx, n - 1));
    }
  }

  /** The first exposed section at an address decides: its file byte is served when it has
      bytes and lies in the file. */
  lemma FirstExposedServes(headers: seq<Header>, shstrndx: nat, buffer: seq<Byte>, i: nat, x: nat, before: Byte)
    requires Exposed(headers, shstrndx, i) && LiesAt(headers, i, x)
    requires forall j: nat | j < i && Exposed(headers, shstrndx, j) :: !LiesAt(headers, j, x)
    ensures var h, chain := headers[i], Chain(headers, shstrndx, |headers|);
      && (HasBytes(h) && h.offset + h.size <= |buffer| ==>
            Overlaid(chain, |chain|, buffer, x, before) == buffer[h.offset + (x - h.addr)])
      && (!HasBytes(h) ==> Overlaid(chain, |chain|, buffer, x, before) == before)
  {
    var n, chain := |headers|, Chain(headers, shstrndx, |headers|);
    ExposedInChain(headers, shstrndx, n, i);
    var k := |Chain(headers, shstrndx, i)|;
    forall j: nat | j < k ensures !chain[j].Contains(x) {
      var from := ChainIsExposed(headers, shstrndx, n, j);
      if from >= i { ChainLonger(headers, shstrndx, i, from); }
      assert !LiesAt(headers, from, x);
    }
    assert chain[k].Contains(x);
    assert FirstMatch(chain, |chain|, x) == k;
    assert PieceEnd(chain, k, x) <= chain[k].End() <= chain[k].addr + chain[k].size;
  }

  /** An address at which no exposed section lies keeps its byte. */
  lemma UncoveredKept(headers: seq<Header>, shstrndx: nat, buffer: seq<Byte>, x: nat, before: Byte)
    requires forall i: nat | Exposed(headers, shstrndx, i) :: !LiesAt(headers, i, x)
    ensures var chain := Chain(headers, shstrndx, |headers|); Overlaid(chain, |chain|, buffer, x, before) == before
  {
    var chain := Chain(headers, shstrndx, |headers|);
    forall k: nat | k < |chain| ensures !chain[k].Contains(x) {
      var i := ChainIsExposed(headers, shstrndx, |headers|, k);
      assert !LiesAt(headers, i, x);
    }
  }

  /** Section `i` is exposed, has bytes, and lies in the file and at `x`. */
  ghost predicate CopiedTo(headers: seq<Header>, shstrndx: nat, length: nat, i: nat, x: nat) {
    && Exposed(headers, shstrndx, i) && LiesAt(headers, i, x)
    && HasBytes(headers[i]) && headers[i].offset + headers[i].size <= length
  }

  lemma CopiedIs(headers: seq<Header>, shstrndx: nat, length: nat, k: nat, x: nat) returns (i: nat)
    requires k < |Chain(headers, shstrndx, |headers|)|
    ensures i < |headers| && k == |Chain(headers, shstrndx, i)| && Chain(headers, shstrndx, |headers|)[k] == headers[i]
    ensures var h := headers[i]; CopiedTo(headers, shstrndx, length, i, x) <==> Copied(h, length) && h.Contains(x)
  {
    i := ChainIsExposed(headers, shstrndx, |headers|, k);
  }

  /** In the blind copy the last such section decides. */
  lemma LastExposedCopied(headers: seq<Header>, shstrndx: nat, buffer: seq<Byte>, i: nat, x: nat, before: Byte)
    requires CopiedTo(headers, shstrndx, |buffer|, i, x)
    requires forall j: nat | j > i :: !CopiedTo(headers, shstrndx, |buffer|, j, x)
    ensures var chain := Chain(headers, shstrndx, |headers|);
      Blind(chain, |chain|, buffer, x, before) == buffer[headers[i].offset + (x - headers[i].addr)]
  {
    var n, chain := |headers|, Chain(headers, shstrndx, |headers|);
    ExposedInChain(headers, shstrndx, n, i);
    var k := |Chain(headers, shstrndx, i)|;
    assert chain[k].Contains(x) && Copied(chain[k], |buffer|);
    forall j: nat | k < j < |chain| ensures !(Copied(chain[j], |buffer|) && chain[j].Contains(x)) {
      var from := CopiedIs(headers, shstrndx, |buffer|, j, x);
      if from <= i { ChainLonger(headers, shstrndx, from, i); }
    }
    assert LastCopied(chain, |chain|, |buffer|, x) == k + 1;
  }

  /** Without one the address keeps its byte. */
  lemma UncopiedKept(headers: seq<Header>, shstrndx: nat, buffer: seq<Byte>, x: nat, before: Byte)
    requires x < USIZE_MAX && forall i: nat :: !CopiedTo(headers, shstrndx, |buffer|, i, x)
    ensures var chain := Chain(headers, shstrndx, |headers|); Blind(chain, |chain|, buffer, x, before) == before
  {
    var chain := Chain(headers, shstrndx, |headers|);
    forall k: nat | k < |chain| ensures !(Copied(chain[k], |buffer|) && chain[k].Contains(x)) {
      var i := CopiedIs(headers, shstrndx, |buffer|, k, x);
    }
  }
}
