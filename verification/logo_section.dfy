/**
 * Choosing the firmware section that holds the boot logo, from the dump the
 * UEFI extractor writes: every `body.bin` whose path names the logo GUID is
 * a candidate; only when there is none, every `info.txt` whose text names
 * the GUID contributes the `body.bin` beside it (when that file exists).
 * The first candidate wins. GUID matching is a case-insensitive substring
 * test.
 */
module LogoSection {
  import opened Wrappers
  import opened Search

  /** The GUID of the firmware file that holds the boot logo. */
  const LogoGuid: string := "7BB28B99-61BB-11D5-9A5D-0090273FC14D"

  /** ASCII lower-casing of one character; every other character is kept. */
  function LowerChar(c: char): char {
    if 'A' <= c <= 'Z' then (c as int - 'A' as int + 'a' as int) as char else c
  }

  /** Lower-casing of a string, character by character. */
  function Lower(s: string): (r: string)
    ensures |r| == |s|
    ensures forall i :: 0 <= i < |s| ==> r[i] == LowerChar(s[i])
  {
    seq(|s|, i requires 0 <= i < |s| => LowerChar(s[i]))
  }

  /** `guid_lower in s.lower()`: the lower-cased GUID is a substring of the lower-cased text. */
  function Mentions(s: string): (r: bool)
    ensures r <==> Occurs(Lower(s), Lower(LogoGuid))
  {
    Find(Lower(s), Lower(LogoGuid)) >= 0
  }

  /** Lower-casing twice is lower-casing once. */
  lemma LowerIdempotent(s: string)
    ensures Lower(Lower(s)) == Lower(s)
  {
  }

  /** Matching ignores case: a text mentions the GUID iff its lower-cased form does. */
  lemma MentionsIgnoresCase(s: string)
    ensures Mentions(Lower(s)) <==> Mentions(s)
  {
    LowerIdempotent(s);
  }

  /** Lower-casing distributes over concatenation. */
  lemma LowerConcat(a: string, b: string)
    ensures Lower(a + b) == Lower(a) + Lower(b)
  {
  }

  /**
   * Any text holding the GUID in any mixture of upper and lower case
   * (in particular the GUID exactly as written) mentions the GUID.
   */
  lemma CaseVariantMentioned(pre: string, g: string, post: string)
    requires Lower(g) == Lower(LogoGuid)
    ensures Mentions(pre + g + post)
  {
    var low := Lower(pre + g + post);
    LowerConcat(pre + g, post);
    LowerConcat(pre, g);
    assert low == Lower(pre) + Lower(LogoGuid) + Lower(post);
    assert low[|pre|..|pre| + |LogoGuid|] == Lower(LogoGuid);
    assert OccursAt(low, Lower(LogoGuid), |pre|);
  }

  /** An `info.txt` file: its text, and the path of the `body.bin` beside it when that exists. */
  datatype InfoFile = InfoFile(text: string, body: Option<string>)

  /** An `info.txt` contributes a candidate: its text names the GUID and its `body.bin` exists. */
  function Contributes(f: InfoFile): (r: bool)
    ensures r <==> Occurs(Lower(f.text), Lower(LogoGuid)) && f.body.Some?
  {
    Mentions(f.text) && f.body.Some?
  }

  /** The only way the section choice fails: no candidate at all. */
  datatype SectionError = GuidNotFound

  /** Index of the first element of `s` satisfying `p`, if any. */
  function FirstWhere<T>(s: seq<T>, p: T -> bool): (r: Option<nat>)
    ensures r.Some? ==> r.value < |s| && p(s[r.value])
    ensures r.Some? ==> forall j :: 0 <= j < r.value ==> !p(s[j])
    ensures r.None? <==> forall j :: 0 <= j < |s| ==> !p(s[j])
  {
    if |s| == 0 then None
    else if p(s[0]) then Some(0)
    else
      match FirstWhere(s[1..], p)
      case None => None
      case Some(k) =>
        assert forall j :: 1 <= j <= k ==> s[j] == s[1..][j - 1];
        Some(k + 1)
  }

  /** `paths[i]` is the first path naming the GUID. */
  ghost predicate FirstPath(paths: seq<string>, i: nat) {
    && i < |paths|
    && Mentions(paths[i])
    && forall j :: 0 <= j < i ==> !Mentions(paths[j])
  }

  /** `infos[k]` is the first `info.txt` contributing a candidate. */
  ghost predicate FirstInfo(infos: seq<InfoFile>, k: nat) {
    && k < |infos|
    && Contributes(infos[k])
    && forall j :: 0 <= j < k ==> !Contributes(infos[j])
  }

  /**
   * The section choice of `step_extract_and_find_logo` over the `body.bin`
   * paths and the `info.txt` files, each in directory-walk order: the first
   * path naming the GUID; failing that, the `body.bin` of the first
   * contributing `info.txt`; failing that, `GuidNotFound`.
   */
  function SelectLogoBody(paths: seq<string>, infos: seq<InfoFile>): (r: Result<string, SectionError>)
    ensures (exists i: nat :: FirstPath(paths, i)) ==>
      exists i: nat :: FirstPath(paths, i) && r == Success(paths[i])
    ensures (forall i :: 0 <= i < |paths| ==> !Mentions(paths[i])) && r.Success? ==>
      exists k: nat :: FirstInfo(infos, k) && r.value == infos[k].body.value
    ensures r.Failure? <==>
      && (forall i :: 0 <= i < |paths| ==> !Mentions(paths[i]))
      && (forall k :: 0 <= k < |infos| ==> !Contributes(infos[k]))
    ensures r.Failure? ==> r.error == GuidNotFound
  {
    match FirstWhere(paths, Mentions)
    case Some(i) =>
      assert FirstPath(paths, i);
      Success(paths[i])
    case None =>
      match FirstWhere(infos, Contributes)
      case Some(k) =>
        assert FirstInfo(infos, k);
        Success(infos[k].body.value)
      case None => Failure(GuidNotFound)
  }

  /** The first path naming the GUID is chosen, whatever the `info.txt` files say. */
  lemma FirstPathChosen(paths: seq<string>, infos: seq<InfoFile>, i: nat)
    requires FirstPath(paths, i)
    ensures SelectLogoBody(paths, infos) == Success(paths[i])
  {
  }

  /**
   * When no path names the GUID, the `body.bin` of the first contributing
   * `info.txt` is chosen.
   */
  lemma FirstInfoChosen(paths: seq<string>, infos: seq<InfoFile>, k: nat)
    requires forall i :: 0 <= i < |paths| ==> !Mentions(paths[i])
    requires FirstInfo(infos, k)
    ensures SelectLogoBody(paths, infos) == Success(infos[k].body.value)
  {
  }
}
