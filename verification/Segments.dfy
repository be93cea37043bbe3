/** Segments: a lent region of a buffer, in one physical piece or in two when it runs
    past the end of the ring, moved through piece by piece. A child segment covers the
    rest of the current piece; when it drops, its offset is added to its parent's. */
module Segments {
  import opened Common
  import opened Ring

  /** The physical pieces of a region: one, or the tail of the buffer and its head. */
  datatype Pieces = One(from: nat, len: nat) | Two(from: nat, len: nat, len2: nat) {

    function Len(): nat { if One? then len else len + len2 }

    ghost predicate Within(cap: nat) {
      from + len <= cap && (Two? ==> 0 < len && from + len == cap && len2 <= from)
    }

    /** Where the `i`-th item of the region lives. */
    function Index(i: nat): nat
      requires i < Len()
    {
      if i < len then from + i else i - len
    }

    /** The rest of the piece that `offset` is in: its place and its length. */
    function Current(offset: nat): (nat, nat)
      requires offset <= Len()
    {
      if One? || offset < len then (from + offset, len - offset)
      else (offset - len, len2 - (offset - len))
    }

    predicate Covers(j: nat) {
      from <= j < from + len || (Two? && j < len2)
    }

    /** What is left of both pieces, in order. */
    function Remaining(offset: nat): seq<(nat, nat)>
      requires offset <= Len()
    {
      if One? then [(from + offset, len - offset)]
      else if offset < len then [(from + offset, len - offset), (0, len2)]
      else [(offset - len, len2 - (offset - len))]
    }
  }

  /** How a region of the ring is cut at the end of the buffer. */
  function Cut(start: nat, take: nat, cap: nat): (p: Pieces)
    requires start < cap && take <= cap
    ensures p.Within(cap) && p.Len() == take
    ensures forall i :: 0 <= i < take ==> p.Index(i) == Slot(start, i, cap)
  {
    var first := Min(take, cap - start);
    if first < take then Two(start, first, take - first) else One(start, take)
  }

  /** The current piece is a run of consecutive items, nonempty while items are left. */
  lemma CurrentIsARun(p: Pieces, offset: nat)
    requires offset <= p.Len()
    ensures var (pos, n) := p.Current(offset);
      && offset + n <= p.Len() && (offset < p.Len() ==> 0 < n)
      && forall i :: offset <= i < offset + n ==> p.Index(i) == pos + (i - offset)
  {}

  /** Distinct items of a region live in distinct cells inside the buffer. */
  lemma IndexIsInjective(p: Pieces, cap: nat)
    requires p.Within(cap)
    ensures forall i :: 0 <= i < p.Len() ==> p.Index(i) < cap
    ensures forall i, j :: 0 <= i < j < p.Len() ==> p.Index(i) != p.Index(j)
  {}

  function Total(rest: seq<(nat, nat)>): nat {
    if rest == [] then 0 else rest[0].1 + Total(rest[1..])
  }

  /** What `iter_slices` hands out adds up to what is left, first piece first. */
  lemma RemainingIsTheRest(p: Pieces, offset: nat)
    requires offset <= p.Len()
    ensures Total(p.Remaining(offset)) == p.Len() - offset
    ensures p.Remaining(offset)[0] == p.Current(offset)
  {
    var r := p.Remaining(offset);
    assert Total(r) == r[0].1 + Total(r[1..]);
    if |r| == 2 { assert r[1..] == [r[1]]; }
  }

  /** The items of a region, in order. */
  function Gather<T>(cells: seq<T>, p: Pieces): (g: seq<T>)
    requires p.Within(|cells|)
    ensures |g| == p.Len()
    ensures forall i :: 0 <= i < p.Len() ==> p.Index(i) < |cells| && g[i] == cells[p.Index(i)]
  {
    IndexIsInjective(p, |cells|);
    seq(p.Len(), i requires 0 <= i < p.Len() => cells[p.Index(i)])
  }

  /** `a` with `part` written over it at `at`. */
  function Blit<T>(a: seq<T>, at: nat, part: seq<T>): (b: seq<T>)
    requires at + |part| <= |a|
    ensures |b| == |a|
  {
    a[..at] + part + a[at + |part|..]
  }

  lemma BlitTwice<T>(a: seq<T>, at: nat, x: seq<T>, y: seq<T>)
    requires at + |x| + |y| <= |a|
    ensures Blit(Blit(a, at, x), at + |x|, y) == Blit(a, at, x + y)
  {}

  /** Writing into the current piece of a region writes the same run of its items and no
      cell outside of it. */
  lemma GatherBlit<T>(cells: seq<T>, p: Pieces, offset: nat, part: seq<T>)
    requires p.Within(|cells|) && offset <= p.Len() && |part| <= p.Current(offset).1
    ensures offset + |part| <= p.Len() && p.Current(offset).0 + |part| <= |cells|
    ensures var after := Blit(cells, p.Current(offset).0, part);
      && Gather(after, p) == Blit(Gather(cells, p), offset, part)
      && forall j :: 0 <= j < |cells| && !p.Covers(j) ==> after[j] == cells[j]
  {
    CurrentIsARun(p, offset);
    IndexIsInjective(p, |cells|);
    var (pos, _) := p.Current(offset);
    var after := Blit(cells, pos, part);
    forall i | 0 <= i < p.Len()
      ensures after[p.Index(i)] == Blit(Gather(cells, p), offset, part)[i]
    {
      if offset <= i < offset + |part| { assert p.Index(i) == pos + (i - offset); }
    }
  }

  lemma BlitNothing<T>(a: seq<T>, at: nat)
    requires at <= |a|
    ensures Blit(a, at, []) == a
  {}

  /** A run of cells of the current piece is a run of items. */
  lemma RunOfItems<T>(cells: seq<T>, p: Pieces, offset: nat, n: nat)
    requires p.Within(|cells|) && offset <= p.Len() && n <= p.Current(offset).1
    ensures offset + n <= p.Len() && p.Current(offset).0 + n <= |cells|
    ensures cells[p.Current(offset).0..p.Current(offset).0 + n] == Gather(cells, p)[offset..offset + n]
  {
    CurrentIsARun(p, offset);
    var (pos, _) := p.Current(offset);
    assert forall i :: offset <= i < offset + n ==> Gather(cells, p)[i] == cells[pos + (i - offset)];
  }

  class Segm<T> {
    const cells: array<T>
    const pieces: Pieces
    var offset: nat

    constructor (cells: array<T>, pieces: Pieces)
      requires pieces.Within(cells.Length)
      ensures Valid() && this.cells == cells && this.pieces == pieces && offset == 0
    {
      this.cells, this.pieces, offset := cells, pieces, 0;
    }

    ghost predicate Valid()
      reads this
    {
      pieces.Within(cells.Length) && offset <= pieces.Len()
    }

    /** Items left, over both pieces. */
    function LeastCount(): nat
      requires Valid()
      reads this
    {
      pieces.Len() - offset
    }

    /** All items of the region in order, moved or not. */
    ghost function Items(): seq<T>
      requires Valid()
      reads this, cells
    {
      Gather(cells[..], pieces)
    }
  }

  /** Moves as many items as fit between two plain slices. */
  method CopySlice<T>(src: array<T>, sFrom: nat, sLen: nat, dst: array<T>, dFrom: nat, dLen: nat)
    returns (count: nat)
    requires src != dst && sFrom + sLen <= src.Length && dFrom + dLen <= dst.Length
    modifies dst
    ensures count == Min(sLen, dLen)
    ensures dst[..] == Blit(old(dst[..]), dFrom, src[sFrom..sFrom + count])
  {
    count := Min(sLen, dLen);
    forall k | 0 <= k < count {
      dst[dFrom + k] := src[sFrom + k];
    }
  }

  /** One round of the move loops: from the current piece to the current piece. Both
      children drop at the end and add their offset to their parent's. */
  method MoveOnce<T>(src: Segm<T>, dst: Segm<T>) returns (count: nat)
    requires src.Valid() && dst.Valid() && src != dst && src.cells != dst.cells
    requires src.LeastCount() > 0 && dst.LeastCount() > 0
    modifies src`offset, dst`offset, dst.cells
    ensures src.Valid() && dst.Valid() && count > 0
    ensures src.offset == old(src.offset) + count && dst.offset == old(dst.offset) + count
    ensures dst.Items() == Blit(old(dst.Items()), old(dst.offset), src.Items()[old(src.offset)..src.offset])
    ensures forall j :: 0 <= j < dst.cells.Length && !dst.pieces.Covers(j) ==> dst.cells[j] == old(dst.cells[j])
  {
    hide Blit, Gather;
    var (sFrom, sLen) := src.pieces.Current(src.offset);
    var (dFrom, dLen) := dst.pieces.Current(dst.offset);
    CurrentIsARun(src.pieces, src.offset);
    CurrentIsARun(dst.pieces, dst.offset);
    RunOfItems(src.cells[..], src.pieces, src.offset, Min(sLen, dLen));
    GatherBlit(dst.cells[..], dst.pieces, dst.offset, src.cells[..][sFrom..sFrom + Min(sLen, dLen)]);
    count := CopySlice(src.cells, sFrom, sLen, dst.cells, dFrom, dLen);
    src.offset, dst.offset := src.offset + count, dst.offset + count;
  }

  /** `move_items_to_segm` and `move_items_from_segm`: they move exactly the smaller of
      the two rests, in order, advance both segments by it and change nothing else. */
  method MoveItems<T>(src: Segm<T>, dst: Segm<T>) returns (c: nat)
    requires src.Valid() && dst.Valid() && src != dst && src.cells != dst.cells
    modifies src`offset, dst`offset, dst.cells
    ensures src.Valid() && dst.Valid()
    ensures c == Min(old(src.LeastCount()), old(dst.LeastCount()))
    ensures src.offset == old(src.offset) + c && dst.offset == old(dst.offset) + c
    ensures dst.Items() == Blit(old(dst.Items()), old(dst.offset), src.Items()[old(src.offset)..src.offset])
    ensures forall j :: 0 <= j < dst.cells.Length && !dst.pieces.Covers(j) ==> dst.cells[j] == old(dst.cells[j])
  {
    hide Blit, Gather;
    c := 0;
    BlitNothing(dst.Items(), dst.offset);
    ghost var s0, d0, from, onto := src.offset, dst.offset, src.Items(), dst.Items();
    assert from[s0..s0 + c] == [];
    while src.LeastCount() > 0 && dst.LeastCount() > 0
      invariant src.Valid() && dst.Valid()
      invariant src.offset == s0 + c && dst.offset == d0 + c && src.Items() == from
      invariant dst.Items() == Blit(onto, d0, from[s0..s0 + c])
      invariant forall j :: 0 <= j < dst.cells.Length && !dst.pieces.Covers(j) ==> dst.cells[j] == old(dst.cells[j])
      decreases src.LeastCount()
    {
      var count := MoveOnce(src, dst);
      BlitTwice(onto, d0, from[s0..s0 + c], from[s0 + c..s0 + c + count]);
      assert from[s0..s0 + c] + from[s0 + c..s0 + c + count] == from[s0..s0 + c + count];
      c := c + count;
    }
  }
}
