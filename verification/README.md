# Boot-logo replacement: a Dafny model of its byte-level core

`bios_logo_replace.py` swaps the boot logo inside a UEFI firmware image. It
runs in seven numbered steps:

1. It builds the UEFI extractor from source.
2. It backs up the current firmware with flashrom.
3. It dumps the firmware with the extractor and picks the section of the
   logo GUID `7BB28B99-61BB-11D5-9A5D-0090273FC14D`.
4. It finds the real image inside that section (`find_real_logo`). The
   image may be buried in nested containers or behind a section header. It
   then reads the old logo's width and height with ImageMagick `identify`.
   Step 6 calls `find_real_logo` again.
5. It re-encodes the new logo as a JPEG. A bounded binary search over the
   JPEG quality brings the output size close to the old payload's size.
6. It searches the backup for the old payload literally and splices the new
   one over it. The result is written to a new file, `modified_bios.bin`.
7. It flashes that file with flashrom.

This project models the deterministic, byte-level part of the script and
proves its properties:

- **`Search`** (`search.dfy`): Python's `bytes.find` and the `in` substring
  test. The result is the least index of a verbatim occurrence, `0` for an
  empty needle, and `-1` when there is none.
- **`Sniffer`** (`sniffer.dfy`): `detect_image_ext`, which classifies bytes
  by their leading magic:
  - `BM` is a bitmap;
  - `FF D8 FF` is a JPEG;
  - `89 50 4E 47` is a PNG.
- **`Locator`** (`locator.dfy`): `find_real_logo`. It works over the
  candidate files as a given list of byte strings: every `unc_data.bin`
  first, then every `body.bin`, each group in directory-walk order.
  Each candidate is tried raw, then after 4, 8, 16 and 24 header bytes. The
  first slice that sniffs as an image wins. With no hit, the whole
  `body.bin` is returned, tagged `.bin`.
- **`Patcher`** (`patcher.dfy`): the search, resize and splice of
  `step_patch_bios`.
  - The located payload is searched for first, and the whole section file
    only when that fails.
  - On a length mismatch, the answer to the resize prompt is the boolean
    `allowResize`. When it is true, the replacement is zero-padded or
    truncated to the old length.
  - The splice is `prefix + new + suffix`.
- **`Quality`** (`quality.dfy`): the quality search of `step_convert_logo`.
  The trial runs of the external encoder are an oracle
  `trial: int -> Option<nat>`. It gives the size of the file produced at a
  quality, or `None` when no file appeared. The final encode is a separate
  oracle `final`, which reports the exit status and the file size.
- **`LogoSection`** (`logo_section.dfy`): the GUID section choice of
  `step_extract_and_find_logo`. It takes the `body.bin` paths and the
  `info.txt` files (each one's text, and the `body.bin` beside it if that
  exists) as given lists.
- **`Bytes`** and **`Wrappers`**: bytes as `bv8`, Python prefix slicing, and
  the `Option` and `Result` types.

Two behaviours of the code are worth noting:

- A trial that produces no file ends the quality search (the `break` at
  line 274). It is not skipped.
- When no candidate is recognised, the locator returns the whole `body.bin`
  bytes tagged `.bin` (lines 225-227).

## Model

| member | source | states |
|---|---|---|
| `Search.Find` | bios_logo_replace.py:312 | The result is `-1` exactly when the needle never occurs. Otherwise the needle occurs verbatim at the result, and at no smaller index. |
| `Search.FindEmptyNeedle` | bios_logo_replace.py:312 | An empty needle is found at index 0. |
| `Search.FindAfterPrefix` | bios_logo_replace.py:312 | If no occurrence starts inside the prefix, a needle placed right after the prefix is found at the prefix's length. |
| `Search.FindAfterForeignPrefix` | bios_logo_replace.py:312 | A non-empty needle whose first element does not appear in the prefix is found right after the prefix. |
| `Sniffer.DetectImageExt` | bios_logo_replace.py:186-194 | The result is format `f` exactly when the data starts with `f`'s magic. It is None exactly when the data starts with no magic. |
| `Sniffer.ShortInputUnrecognised` | bios_logo_replace.py:186-194 | Inputs of length 0 or 1 are never recognised. |
| `Sniffer.LeadingZeroUnrecognised` | bios_logo_replace.py:186-194 | An input whose first byte is zero is never recognised. |
| `Sniffer.DependsOnFirstFour` | bios_logo_replace.py:188-193 | Two inputs with the same first four bytes get the same verdict. |
| `Sniffer.ExtensionKeepsFormat` | bios_logo_replace.py:186-194 | Bytes appended after a recognised input do not change its verdict. |
| `Locator.SniffCandidate` | bios_logo_replace.py:213-223 | For one candidate, the result is the smallest skip among 0, 4, 8, 16 and 24 that is attempted and recognised. A non-zero skip is attempted only when the candidate is longer than the skip. The result is None exactly when no attempted skip is recognised. |
| `Locator.ScanFrom` | bios_logo_replace.py:212-223 | The result names a candidate and a skip. That candidate is the first recognised one, and that skip is its first recognising skip. The result is None exactly when no candidate is recognised. |
| `Locator.FindRealLogo` | bios_logo_replace.py:197-227 | The tag is `.bin` exactly when no candidate is recognised at any skip, and then the data is the whole `body`. Otherwise the data is a suffix of the first recognised candidate, cut at its first recognising skip, and sniffing the data gives back the returned format. |
| `Locator.FirstHitUnique` | bios_logo_replace.py:212-223 | The first recognised candidate and its first recognising skip are unique. |
| `Locator.FirstHitReturned` | bios_logo_replace.py:212-223 | Conversely, when candidate `j` is the first recognised one at first skip `s`, the locator returns exactly `candidates[j][s:]`, tagged with its format. |
| `Locator.SuffixIdentifiesExt` | bios_logo_replace.py:186-194 | The extension string names the tag: two tags share an extension only when they are equal, and the string is `.bin` exactly for the fallback. |
| `Locator.RawHitReturnedWhole` | bios_logo_replace.py:215-217 | If the first recognised candidate is an image without any header, it is returned whole. |
| `Patcher.LocateOriginal` | bios_logo_replace.py:311-322 | The result is the least offset of the located payload. Only when that payload does not occur is it the least offset of the whole section file. The search fails (payload not found) exactly when neither occurs. |
| `Patcher.Fit` | bios_logo_replace.py:334-337 | The result has exactly the old length. A shorter payload is kept as a prefix and followed by zero bytes. A longer payload is truncated to its prefix of that length. |
| `Patcher.Resize` | bios_logo_replace.py:327-337 | A payload of the right length passes unchanged. On a mismatch, the fitted payload is returned when resizing is allowed. When it is not, the result is an error carrying the size difference. |
| `Bytes.Distance` | bios_logo_replace.py:328 | `abs(a - b)` of two lengths or sizes, used both for the printed length difference and for a trial's distance from the target (line 276). Adding it to the smaller value gives the larger one. |
| `Patcher.Splice` | bios_logo_replace.py:339 | The result keeps the bytes before the offset, then holds the payload, then the bytes after the old window. Its length is the old length plus the change in window size. |
| `Patcher.SpliceInPlace` | bios_logo_replace.py:339 | With a same-length payload, the output has the firmware's length. It holds the payload inside the window, and every byte outside the window is unchanged. |
| `Patcher.PatchBios` | bios_logo_replace.py:310-339 | A patch has the firmware's length and rewrites only the window at the located offset, which then holds the fitted replacement. It fails exactly when the search fails, or when the lengths differ and resizing is not allowed. It fails with payload-not-found exactly when neither search target occurs. |
| `Patcher.PatchRoundTrip` | bios_logo_replace.py:311-339 | Patching with the very bytes that were found gives back the firmware unchanged. |
| `Patcher.SpliceUndo` | bios_logo_replace.py:339 | Splicing back the overwritten window restores the original firmware. |
| `Patcher.PatchedPayloadFound` | bios_logo_replace.py:339 | After a patch, a search of the output for the new window succeeds, at the patch offset or earlier. |
| `Patcher.PatchAfterZeroPrefix` | bios_logo_replace.py:311-339 | Take a firmware of `k` zero bytes, then a payload that opens with a non-zero byte, then any tail. The payload is located at offset `k`, and a same-length replacement yields zeros, then the replacement, then the tail. |
| `Quality.TrialsFrom` | bios_logo_replace.py:264-286 | The reference schedule of qualities tried, from a window with `n` iterations left. It has at most `n` trials, and with `n > 0` at least one, the first being the window's midpoint. |
| `Quality.Narrow` | bios_logo_replace.py:280-283 | Narrowing after a trial keeps the loop bounds (`lo` in 1..96, `hi` in -1..95). A file that is too large moves `hi` below the quality tried and keeps `lo`. A file that is too small moves `lo` above it and keeps `hi`. |
| `Quality.Update` | bios_logo_replace.py:276-279 | A trial that made no file leaves the best unchanged. Otherwise the stored distance becomes the minimum of the old best distance and this trial's distance. The best quality changes only to the quality tried, and only when that trial is strictly nearer. |
| `Quality.UpdateStoresMinimum` | bios_logo_replace.py:276-279 | After a trial that made a file, the stored distance is exactly the minimum of the old best distance and this trial's distance. |
| `Quality.TrialsShape` | bios_logo_replace.py:260-286 | The search makes between 1 and 10 trials. The first quality is `(lo + hi) // 2` of the starting window, and every quality lies in 0..95. Every trial but the last continued the loop, and the last one stopped it unless the bound of ten did. |
| `Quality.SimulateTracks` | bios_logo_replace.py:264-286 | The loop's final best equals the strict-`<` running best taken over the whole trial schedule. |
| `Quality.TrackIsEarliestNearest` | bios_logo_replace.py:276-279 | Two cases, depending on whether any trial completed. With no completed trial, the running best has infinite distance and stays at quality 50. Otherwise it is the quality of the earliest completed trial whose size is nearest the target, and its distance is that trial's distance. |
| `Quality.Step` | bios_logo_replace.py:265-285 | One loop iteration tries the midpoint of the window and keeps `lo` and `hi` in bounds. If the loop goes on, the qualities tried so far followed by the schedule from the new window are still the whole schedule, and the final best is unchanged. If it stops, the qualities tried are the whole schedule and the running best is the final best. |
| `Quality.RunTrials` | bios_logo_replace.py:264-286 | The loop tries exactly the qualities of the reference schedule, and ends with the quality that the strict-`<` running best `Track` computes over the qualities it tried. |
| `Quality.ChooseQuality` | bios_logo_replace.py:260-286 | There are 1 to 10 trials. The first trial is at quality 48 and all trials are in 0..95. The kept quality is the earliest nearest completed trial, or 50 if none completed. |
| `Quality.ConvertLogo` | bios_logo_replace.py:260-295 | The final encode runs at the kept quality, which is the earliest nearest completed trial, or 50 if no trial completed. A non-zero exit status stops the run with that status (`run`'s default `check=True`). Otherwise it succeeds exactly when a file exists, and reports that file's size. |
| `Quality.AlwaysTooLarge` | bios_logo_replace.py:264-286 | When every file is too large, the qualities tried are 48, 24, 12, 6, 3, 1, 0, 0, 0, 0. The loop goes on after `lo > hi`. |
| `LogoSection.Mentions` | bios_logo_replace.py:144-149 | A text mentions the GUID exactly when the lower-cased GUID occurs in the lower-cased text. |
| `LogoSection.MentionsIgnoresCase` | bios_logo_replace.py:144-149 | A text and its lower-cased form either both mention the GUID or both do not. |
| `LogoSection.CaseVariantMentioned` | bios_logo_replace.py:144-149 | A text containing the GUID in any mix of letter case mentions it. |
| `LogoSection.Contributes` | bios_logo_replace.py:155-157 | An `info.txt` supplies a candidate exactly when its lower-cased text contains the lower-cased GUID and a `body.bin` sits beside it. |
| `LogoSection.SelectLogoBody` | bios_logo_replace.py:144-168 | If some path names the GUID, the first such path is chosen. Otherwise the choice is the `body.bin` of the first `info.txt` that names the GUID and has a `body.bin`. The choice fails exactly when neither exists. |
| `LogoSection.FirstPathChosen` | bios_logo_replace.py:147-150 | Conversely, the first path naming the GUID is chosen, whatever the `info.txt` files say. |
| `LogoSection.FirstInfoChosen` | bios_logo_replace.py:152-158 | Conversely, when no path names the GUID, the first contributing `info.txt`'s `body.bin` is chosen. |

## Left out

- Process plumbing (`run`, `check_root`, `require_tool`, lines 36-65): subprocess and OS calls.
- Building UEFITool and the flashrom backup and flash steps (lines 69-128, 373-381): external tools and hardware I/O.
- Directory walks (`rglob`), file reads and writes, temporary files and `step_cleanup` (lines 344-370). The model takes candidate byte strings, path strings and `info.txt` contents as inputs, in the order the script builds them.
- The interactive prompts (lines 122, 330, 376, 429, 435). The forced-resize prompt at line 330 becomes the boolean `allowResize`. The others only gate external steps.
- The internals of ImageMagick `identify` and `convert`. Each trial run is an oracle call `trial(q)`, which sees only whether a file appeared (line 273). The final encode at lines 289-295 is the separate oracle `final(q)`. The model does not relate the two oracles, and it does not model a stale `_quality_test.jpg` left over from an earlier run.
- Parsing the `identify` output `WxH` with Python `int()` (lines 243-248): the model does not need the image dimensions.
- The 10% size warning (line 297): it compares floats and only prints.
- `_print_sample_guids` (lines 171-184): diagnostic output only.
- LogoSection.Mentions: lower-cases ASCII letters only, where Python's `str.lower` follows Unicode. The lower-cased GUID is pure ASCII. Any text that Unicode lower-casing maps to contain it, but ASCII lower-casing does not, is outside this model.
