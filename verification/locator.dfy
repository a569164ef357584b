/**
 * The payload locator `find_real_logo`: scans the candidate files
 * (`unc_data.bin` files first, then `body.bin` files, in directory-walk
 * order) and, for each, sniffs the raw bytes and then the bytes after a
 * header of 4, 8, 16 or 24 bytes; the first slice that sniffs as an image
 * is returned. When nothing is recognised the whole `body.bin` is returned
 * with the `.bin` tag.
 */
module Locator {
  import opened Wrappers
  import opened Bytes
  import opened Sniffer

  /** The extension the locator reports: a recognised format, or `.bin`. */
  datatype Ext = Image(format: Format) | Bin {
    /** The extension string the script passes on: `.bmp`, `.jpg`, `.png` or `.bin`. */
    function Suffix(): string {
      match this
      case Image(f) => f.Extension()
      case Bin => ".bin"
    }
  }

  /**
   * The extension string determines the tag: the caller's test
   * `ext == ".bin"` is true exactly for the fallback, and the three image
   * extensions are distinct.
   */
  lemma SuffixIdentifiesExt(a: Ext, b: Ext)
    ensures a.Suffix() == b.Suffix() <==> a == b
    ensures a.Suffix() == ".bin" <==> a.Bin?
  {
  }

  /** The located payload: the exact bytes later searched for in the firmware, and their tag. */
  datatype Logo = Logo(data: seq<Byte>, ext: Ext)

  /**
   * `skip` is one of the header lengths tried: 0 (the raw file), then 4, 8,
   * 16 and 24. They are tried in ascending order, so "earlier" is "smaller".
   */
  predicate IsSkip(skip: nat) {
    skip == 0 || skip == 4 || skip == 8 || skip == 16 || skip == 24
  }

  /**
   * Skipping `skip` header bytes of `raw` is attempted (the raw file always;
   * a non-zero skip only when `len(raw) > skip`) and the rest sniffs as an image.
   */
  predicate HitAt(raw: seq<Byte>, skip: nat) {
    (skip == 0 || skip < |raw|) && DetectImageExt(raw[skip..]).Some?
  }

  /** No attempted skip of `raw` is recognised. */
  ghost predicate NoHit(raw: seq<Byte>) {
    forall skip: nat :: IsSkip(skip) ==> !HitAt(raw, skip)
  }

  /** `skip` is the first skip that recognises `raw`. */
  ghost predicate FirstSkip(raw: seq<Byte>, skip: nat) {
    && IsSkip(skip)
    && HitAt(raw, skip)
    && forall s: nat :: IsSkip(s) && s < skip ==> !HitAt(raw, s)
  }

  /** No candidate with index in [lo, hi) is recognised at any skip. */
  ghost predicate NoHitIn(candidates: seq<seq<Byte>>, lo: nat, hi: nat)
    requires lo <= hi <= |candidates|
  {
    forall i :: lo <= i < hi ==> NoHit(candidates[i])
  }

  /**
   * Lines 213-223 for one candidate file: the raw bytes first, then
   * `for skip in [4, 8, 16, 24]` guarded by `len(raw) > skip`. Returns the
   * first skip whose slice sniffs as an image.
   */
  function SniffCandidate(raw: seq<Byte>): (r: Option<nat>)
    ensures r.Some? ==> FirstSkip(raw, r.value)
    ensures r.None? <==> NoHit(raw)
  {
    if HitAt(raw, 0) then Some(0)
    else if HitAt(raw, 4) then Some(4)
    else if HitAt(raw, 8) then Some(8)
    else if HitAt(raw, 16) then Some(16)
    else if HitAt(raw, 24) then Some(24)
    else None
  }

  /**
   * Candidate `j` is the first recognised candidate and `skip` its first
   * recognising skip.
   */
  ghost predicate FirstHit(candidates: seq<seq<Byte>>, j: nat, skip: nat) {
    && j < |candidates|
    && NoHitIn(candidates, 0, j)
    && FirstSkip(candidates[j], skip)
  }

  /**
   * The outer loop of lines 212-223 from candidate `i` onwards: the index of
   * the first recognised candidate and its first recognising skip.
   */
  function ScanFrom(candidates: seq<seq<Byte>>, i: nat): (r: Option<(nat, nat)>)
    requires i <= |candidates|
    requires NoHitIn(candidates, 0, i)
    ensures r.Some? ==> FirstHit(candidates, r.value.0, r.value.1)
    ensures r.None? <==> NoHitIn(candidates, 0, |candidates|)
    decreases |candidates| - i
  {
    if i == |candidates| then None
    else
      match SniffCandidate(candidates[i])
      case Some(skip) => Some((i, skip))
      case None =>
        assert NoHitIn(candidates, 0, i + 1);
        ScanFrom(candidates, i + 1)
  }

  /**
   * `find_real_logo`: the first candidate (in list order) that sniffs as an
   * image at some skip (in the order 0, 4, 8, 16, 24) yields the slice after
   * that skip, tagged with its sniffed format, so sniffing the returned bytes
   * gives back the returned tag; if no candidate is recognised at any skip,
   * the whole `body` tagged `.bin`.
   */
  function FindRealLogo(candidates: seq<seq<Byte>>, body: seq<Byte>): (r: Logo)
    ensures r.ext.Bin? <==> NoHitIn(candidates, 0, |candidates|)
    ensures r.ext.Bin? ==> r.data == body
    ensures r.ext.Image? ==>
      exists j: nat, skip: nat :: FirstHit(candidates, j, skip) && r.data == candidates[j][skip..]
    ensures r.ext.Image? ==> DetectImageExt(r.data) == Some(r.ext.format)
  {
    match ScanFrom(candidates, 0)
    case Some((j, skip)) =>
      var data := candidates[j][skip..];
      Logo(data, Image(DetectImageExt(data).value))
    case None =>
      Logo(body, Bin)
  }

  /** The first recognised candidate and its first recognising skip are unique. */
  lemma FirstHitUnique(candidates: seq<seq<Byte>>, j1: nat, s1: nat, j2: nat, s2: nat)
    requires FirstHit(candidates, j1, s1) && FirstHit(candidates, j2, s2)
    ensures j1 == j2 && s1 == s2
  {
  }

  /**
   * Conversely, when candidate `j` is the first recognised one and `skip`
   * the first skip that recognises it, the locator returns exactly the
   * bytes after that skip, tagged with their format.
   */
  lemma FirstHitReturned(candidates: seq<seq<Byte>>, body: seq<Byte>, j: nat, skip: nat)
    requires FirstHit(candidates, j, skip)
    ensures var data := candidates[j][skip..];
      FindRealLogo(candidates, body) == Logo(data, Image(DetectImageExt(data).value))
  {
    var s := ScanFrom(candidates, 0);
    assert !NoHit(candidates[j]);
    assert s.Some?;
    FirstHitUnique(candidates, s.value.0, s.value.1, j, skip);
  }

  /** In particular, the first recognised candidate that is an image without any header is returned whole. */
  lemma RawHitReturnedWhole(candidates: seq<seq<Byte>>, body: seq<Byte>, j: nat)
    requires j < |candidates|
    requires NoHitIn(candidates, 0, j)
    requires DetectImageExt(candidates[j]).Some?
    ensures FindRealLogo(candidates, body) == Logo(candidates[j], Image(DetectImageExt(candidates[j]).value))
  {
    assert candidates[j][0..] == candidates[j];
    assert FirstSkip(candidates[j], 0);
    FirstHitReturned(candidates, body, j, 0);
  }
}
