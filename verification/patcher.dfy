/**
 * The binary patcher of `step_patch_bios`, without its file reads and its
 * confirmation prompt: a literal search for the original payload (falling
 * back to the whole `body.bin`), an optional forced resize of the new
 * payload, and the splice `prefix + new + suffix`.
 */
module Patcher {
  import opened Wrappers
  import opened Bytes
  import opened Search

  /** Why no patched firmware is produced. */
  datatype PatchError =
    | PayloadNotFound            // neither the payload nor body.bin occurs in the firmware
    | ResizeDeclined(delta: nat) // lengths differ by `delta` and the forced resize was not confirmed

  /** Where the bytes to replace were found, and which bytes they are. */
  datatype Match = Match(offset: nat, original: seq<Byte>)

  /** The window `[m.offset, m.offset + |m.original|)` of `bios` holds exactly `m.original`. */
  predicate MatchIn(bios: seq<Byte>, m: Match) {
    OccursAt(bios, m.original, m.offset)
  }

  /**
   * Lines 311-322: search for the located payload `imgData`; only when it is
   * absent, search for the whole section file `body`; when both are absent the
   * run stops.
   */
  function LocateOriginal(bios: seq<Byte>, imgData: seq<Byte>, body: seq<Byte>): (r: Result<Match, PatchError>)
    ensures r.Success? ==> MatchIn(bios, r.value)
    ensures r.Success? ==> forall j :: 0 <= j < r.value.offset ==> !OccursAt(bios, r.value.original, j)
    ensures r.Success? && Occurs(bios, imgData) ==> r.value.original == imgData
    ensures r.Success? && !Occurs(bios, imgData) ==> r.value.original == body
    ensures r.Failure? <==> !Occurs(bios, imgData) && !Occurs(bios, body)
    ensures r.Failure? ==> r.error == PayloadNotFound
  {
    var offset := Find(bios, imgData);
    if offset != -1 then Success(Match(offset, imgData))
    else
      var offset' := Find(bios, body);
      if offset' != -1 then Success(Match(offset', body))
      else Failure(PayloadNotFound)
  }

  /**
   * Lines 334-337: a shorter payload is extended with zero bytes, a longer one
   * is cut, so that the result is exactly `n` bytes long.
   */
  function Fit(payload: seq<Byte>, n: nat): (r: seq<Byte>)
    ensures |r| == n
    ensures |payload| <= n ==> r[..|payload|] == payload
    ensures |payload| <= n ==> forall i :: |payload| <= i < n ==> r[i] == 0
    ensures |payload| >= n ==> r == payload[..n]
  {
    if |payload| < n then payload + Zeros(n - |payload|)
    else payload[..n]
  }

  /**
   * Lines 327-337: a payload of the right length is used as it is; otherwise
   * the forced resize must be confirmed (`allowResize`), and the run stops
   * when it is not.
   */
  function Resize(payload: seq<Byte>, n: nat, allowResize: bool): (r: Result<seq<Byte>, PatchError>)
    ensures r.Success? ==> |r.value| == n && r.value == Fit(payload, n)
    ensures |payload| == n ==> r == Success(payload)
    ensures |payload| != n && allowResize ==> r == Success(Fit(payload, n))
    ensures |payload| != n && !allowResize ==> r == Failure(ResizeDeclined(Distance(|payload|, n)))
  {
    if |payload| != n then
      if !allowResize then Failure(ResizeDeclined(Distance(|payload|, n)))
      else Success(Fit(payload, n))
    else Success(payload)
  }

  /**
   * Line 339: `bios[:offset] + payload + bios[offset + oldLen:]`. The bytes
   * before the window and after it are kept and the window's `oldLen` bytes
   * are replaced by `payload`.
   */
  function Splice(bios: seq<Byte>, offset: nat, oldLen: nat, payload: seq<Byte>): (r: seq<Byte>)
    requires offset + oldLen <= |bios|
    ensures |r| == |bios| - oldLen + |payload|
    ensures r[..offset] == bios[..offset]
    ensures r[offset..offset + |payload|] == payload
    ensures r[offset + |payload|..] == bios[offset + oldLen..]
  {
    bios[..offset] + payload + bios[offset + oldLen..]
  }

  /**
   * `r` is `bios` with the window starting at `offset` overwritten by
   * `window`: same length, the window's bytes are `window`, every other byte
   * is unchanged.
   */
  predicate ReplacesWindow(bios: seq<Byte>, r: seq<Byte>, offset: nat, window: seq<Byte>) {
    && |r| == |bios|
    && offset + |window| <= |bios|
    && (forall i :: offset <= i < offset + |window| ==> r[i] == window[i - offset])
    && (forall i :: 0 <= i < |bios| && !(offset <= i < offset + |window|) ==> r[i] == bios[i])
  }

  /** With a same-length payload, the splice changes the window and nothing else. */
  lemma SpliceInPlace(bios: seq<Byte>, offset: nat, payload: seq<Byte>)
    requires offset + |payload| <= |bios|
    ensures ReplacesWindow(bios, Splice(bios, offset, |payload|, payload), offset, payload)
  {
  }

  /**
   * The search, resize and splice of `step_patch_bios`. `bios` is the
   * firmware, `imgData` the located payload, `body` the whole section file,
   * `newBody` the encoded replacement and `allowResize` the answer to the
   * forced-resize prompt.
   */
  function PatchBios(bios: seq<Byte>, imgData: seq<Byte>, body: seq<Byte>, newBody: seq<Byte>, allowResize: bool)
    : (r: Result<seq<Byte>, PatchError>)
    ensures r.Success? ==> |r.value| == |bios|
    ensures r.Success? ==> LocateOriginal(bios, imgData, body).Success?
    ensures r.Success? ==>
      var m := LocateOriginal(bios, imgData, body).value;
      ReplacesWindow(bios, r.value, m.offset, Fit(newBody, |m.original|))
    ensures r.Failure? <==>
      || LocateOriginal(bios, imgData, body).Failure?
      || (!allowResize && |newBody| != |LocateOriginal(bios, imgData, body).value.original|)
    ensures r == Failure(PayloadNotFound) <==> !Occurs(bios, imgData) && !Occurs(bios, body)
  {
    var located := LocateOriginal(bios, imgData, body);
    if located.Failure? then Failure(located.error)
    else
      var m := located.value;
      var resized := Resize(newBody, |m.original|, allowResize);
      if resized.Failure? then Failure(resized.error)
      else
        SpliceInPlace(bios, m.offset, resized.value);
        Success(Splice(bios, m.offset, |m.original|, resized.value))
  }

  /**
   * Patching with the very bytes that were found gives back the firmware
   * unchanged, whatever the answer to the resize prompt.
   */
  lemma PatchRoundTrip(bios: seq<Byte>, imgData: seq<Byte>, body: seq<Byte>, allowResize: bool)
    requires LocateOriginal(bios, imgData, body).Success?
    ensures var m := LocateOriginal(bios, imgData, body).value;
      PatchBios(bios, imgData, body, m.original, allowResize) == Success(bios)
  {
    var m := LocateOriginal(bios, imgData, body).value;
    var r := PatchBios(bios, imgData, body, m.original, allowResize);
    assert Fit(m.original, |m.original|) == m.original;
    assert r.value == bios;
  }

  /**
   * Splicing back the bytes a patch overwrote restores the firmware: the
   * backup together with the window is enough to undo a patch.
   */
  lemma SpliceUndo(bios: seq<Byte>, offset: nat, payload: seq<Byte>)
    requires offset + |payload| <= |bios|
    ensures var patched := Splice(bios, offset, |payload|, payload);
      Splice(patched, offset, |payload|, bios[offset..offset + |payload|]) == bios
  {
  }

  /** After a patch, the new window is found in the output at the patch offset or earlier. */
  lemma PatchedPayloadFound(bios: seq<Byte>, imgData: seq<Byte>, body: seq<Byte>, newBody: seq<Byte>, allowResize: bool)
    requires PatchBios(bios, imgData, body, newBody, allowResize).Success?
    ensures var patched := PatchBios(bios, imgData, body, newBody, allowResize).value;
      var m := LocateOriginal(bios, imgData, body).value;
      0 <= Find(patched, Fit(newBody, |m.original|)) <= m.offset
  {
    var patched := PatchBios(bios, imgData, body, newBody, allowResize).value;
    var m := LocateOriginal(bios, imgData, body).value;
    var window := Fit(newBody, |m.original|);
    assert patched[m.offset..m.offset + |window|] == window;
    assert OccursAt(patched, window, m.offset);
  }

  /**
   * A firmware of `k` zero bytes followed by a payload that opens with a
   * non-zero byte (every image magic does) and any tail: the payload is found
   * at offset `k`, and patching it with a same-length replacement changes
   * bytes `[k, k + |payload|)` only.
   */
  lemma PatchAfterZeroPrefix(k: nat, payload: seq<Byte>, tail: seq<Byte>, newBody: seq<Byte>, body: seq<Byte>)
    requires |payload| > 0 && payload[0] != 0
    requires |newBody| == |payload|
    ensures var bios := Zeros(k) + payload + tail;
      && LocateOriginal(bios, payload, body) == Success(Match(k, payload))
      && PatchBios(bios, payload, body, newBody, false) == Success(Zeros(k) + newBody + tail)
  {
    var bios := Zeros(k) + payload + tail;
    FindAfterForeignPrefix(Zeros(k), payload, tail);
    assert LocateOriginal(bios, payload, body) == Success(Match(k, payload));
    assert Resize(newBody, |payload|, false) == Success(newBody);
    assert bios[..k] == Zeros(k);
    assert bios[k + |payload|..] == tail;
  }
}
