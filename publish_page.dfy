/**
 * The decisions made by the publish form's script (static/publish.js), with
 * the DOM abstracted away: the warning shown for chosen attachments, the
 * `endsWith` polyfill, the Biosafety Level 3 button, the "Add Another" cap
 * and the word-count label.
 */
module PublishPage {
  import opened Options
  import opened Sequences
  import opened Decimal

  /* ---------- the `endsWith` polyfill ---------- */

  /** `String.prototype.substr(start, length)` as ECMAScript defines it, for integer arguments. */
  function Substr(s: string, start: int, length: int): (r: string)
    ensures |r| <= |s|
    ensures |r| <= if length < 0 then 0 else length
    ensures 0 <= start && length >= 0 && start + length <= |s| ==> r == s[start..start + length]
  {
    var from := if start >= 0 then start else if |s| + start >= 0 then |s| + start else 0;
    var count := if length < 0 then 0 else length;
    var count := if count < |s| - from then count else |s| - from;
    if count <= 0 then "" else s[from..from + count]
  }

  /**
   * The polyfill installed when the browser lacks `endsWith`. An omitted
   * `position`, or one not below the string's length, means the whole string.
   */
  function EndsWith(s: string, search: string, position: Option<int>): bool {
    var end := if position.Some? && position.value < |s| then position.value else |s|;
    Substr(s, end - |search|, |search|) == search
  }

  /** The native `endsWith`: `search` ends exactly at `position`, clamped to the string. */
  predicate NativeEndsWith(s: string, search: string, position: Option<int>) {
    var end := if position.None? || position.value > |s| then |s| else if position.value < 0 then 0 else position.value;
    |search| <= end && s[end - |search|..end] == search
  }

  /** With `position` omitted or at least the length, the polyfill is the suffix test. */
  lemma EndsWithIsSuffix(s: string, search: string, position: Option<int>)
    requires position.None? || position.value >= |s|
    ensures EndsWith(s, search, position) <==> HasSuffix(s, search)
  {
    if |search| <= |s| {
      assert Substr(s, |s| - |search|, |search|) == s[|s| - |search|..];
    } else {
      assert |Substr(s, |s| - |search|, |search|)| < |search|;
    }
  }

  /** A search string longer than the string never matches, whatever the position. */
  lemma LongerNeverEndsWith(s: string, search: string, position: Option<int>)
    requires |search| > |s|
    ensures !EndsWith(s, search, position)
  {
    var end := if position.Some? && position.value < |s| then position.value else |s|;
    assert |Substr(s, end - |search|, |search|)| <= |s| < |search|;
  }

  /** The polyfill agrees with the native method whenever the match would not start before index 0. */
  lemma EndsWithAgreesWithNative(s: string, search: string, position: Option<int>)
    requires position.None? || position.value >= |s| || position.value >= |search|
    ensures EndsWith(s, search, position) <==> NativeEndsWith(s, search, position)
  {
    if position.None? || position.value >= |s| {
      EndsWithIsSuffix(s, search, position);
    } else {
      var end := position.value;
      assert Substr(s, end - |search|, |search|) == s[end - |search|..end];
    }
  }

  /**
   * Otherwise they can differ: a negative start makes `substr` count from the
   * end, so `"ab".endsWith("b", 0)` holds under the polyfill but not natively.
   */
  lemma EndsWithNegativeStart()
    ensures EndsWith("ab", "b", Some(0))
    ensures !NativeEndsWith("ab", "b", Some(0))
  {
    assert Substr("ab", -1, 1) == "ab"[1..2];
  }

  /* ---------- the attachment warning ---------- */

  /** Files larger than this many bytes draw the oversize warning. */
  const AttachmentSize := 1000000

  const DocumentTypes: seq<string> := [
    "application/excel",
    "application/msword",
    "application/pdf",
    "application/rtf",
    "application/vnd.openxmlformats-officedocument.spreadsheetml.sheet",
    "application/vnd.openxmlformats-officedocument.wordprocessingml.document",
    "application/x-excel",
    "text/richtext"
  ]

  const DocumentExtensions: seq<string> := ["pdf", "doc", "rtf", "docx", "xls", "xlsx", "ps", "latex", "tex"]

  const SoftwareTypes: seq<string> := [
    "application/java",
    "application/java-byte-code",
    "application/javascript",
    "application/x-bytecode.python",
    "application/x-java-class",
    "application/x-javascript",
    "text/javascript",
    "text/x-javascript",
    "text/x-script.phyton"
  ]

  const SoftwareExtensions: seq<string> := ["c", "cpp", "cc", "js", "java", "rb", "py"]

  const SoftwareWarning := "The attachment above looks like computer software. Please consider releasing under an <a href=https://opensource.org/licenses> open source software license </a>."
  const DocumentWarning := "This attachment looks like a word-processing document rather than a data file. You should publish documents through a preprint server instead, and describey what you\U{2019}ve found succinctly above."
  const OversizeWarning := "This file is over 1MB in size. Please attach smaller files whenever possible."

  /** What the script reads of a chosen file. */
  datatype FileInfo = FileInfo(name: string, size: nat, mimeType: string)

  predicate Oversize(f: FileInfo) {
    f.size > AttachmentSize
  }

  /** The name ends with one of the extensions (a bare suffix: no dot is required). */
  predicate EndsWithAny(name: string, extensions: seq<string>) {
    exists i :: 0 <= i < |extensions| && HasSuffix(name, extensions[i])
  }

  /** The two kinds of attachment the script warns about. */
  datatype Kind = Document | Software

  /** A file looks like a document (software) when its name ends with, or its type is, one of that kind's. */
  predicate LooksLike(f: FileInfo, kind: Kind) {
    match kind
    case Document => EndsWithAny(f.name, DocumentExtensions) || f.mimeType in DocumentTypes
    case Software => EndsWithAny(f.name, SoftwareExtensions) || f.mimeType in SoftwareTypes
  }

  /** Some file of the list looks like `kind`. */
  predicate AnyLooksLike(files: seq<FileInfo>, kind: Kind)
    decreases |files|
  {
    files != [] && (AnyLooksLike(files[..|files| - 1], kind) || LooksLike(files[|files| - 1], kind))
  }

  /** The index of the first oversize file, or the number of files when there is none. */
  function FirstOversize(files: seq<FileInfo>): (k: nat)
    ensures k <= |files|
    ensures forall i :: 0 <= i < k ==> !Oversize(files[i])
    ensures k < |files| ==> Oversize(files[k])
    decreases |files|
  {
    if files == [] then 0
    else if Oversize(files[0]) then 0
    else 1 + FirstOversize(files[1..])
  }

  datatype Flags = Flags(oversize: bool, software: bool, document: bool)

  /** The flags after the scan, which stops at the first oversize file. */
  function FlagsOf(files: seq<FileInfo>): (flags: Flags)
    ensures flags.oversize <==> exists i :: 0 <= i < |files| && Oversize(files[i])
  {
    var k := FirstOversize(files);
    Flags(k < |files|, AnyLooksLike(files[..k], Software), AnyLooksLike(files[..k], Document))
  }

  datatype WarningClass = Problem | Legal

  /** The warning paragraph shown after the file input. */
  datatype Warning = Warning(html: string, className: WarningClass)

  /**
   * The paragraph for a set of flags, or none: oversize wins over software,
   * software over document for the text, while any document-like file makes
   * the class `problem`.
   */
  function WarningFor(flags: Flags): (w: Option<Warning>)
    ensures w.None? <==> !flags.oversize && !flags.software && !flags.document
    ensures flags.oversize ==> w == Some(Warning(OversizeWarning, Problem))
    ensures !flags.oversize && flags.software ==> w.Some? && w.value.html == SoftwareWarning
    ensures !flags.oversize && !flags.software && flags.document ==> w == Some(Warning(DocumentWarning, Problem))
    ensures w.Some? && w.value.className == Legal <==> !flags.oversize && !flags.document && flags.software
  {
    if flags.oversize || flags.software || flags.document then
      var html := if flags.oversize then OversizeWarning else if flags.software then SoftwareWarning else DocumentWarning;
      var className := if flags.oversize then Problem else if flags.document then Problem else Legal;
      Some(Warning(html, className))
    else None
  }

  /** Whether `name` ends with one of `extensions`, found by a scan that stops at the first match. */
  method MatchesExtension(name: string, extensions: seq<string>) returns (found: bool)
    ensures found <==> EndsWithAny(name, extensions)
  {
    found := false;
    for index := 0 to |extensions|
      invariant !found
      invariant forall j :: 0 <= j < index ==> !HasSuffix(name, extensions[j])
    {
      if |extensions[index]| <= |name| && name[|name| - |extensions[index]|..] == extensions[index] {
        found := true;
        break;
      }
    }
  }

  /** Whether `mimeType` is one of `types`, found by a scan that stops at the first match. */
  method MatchesType(mimeType: string, types: seq<string>) returns (found: bool)
    ensures found <==> mimeType in types
  {
    found := false;
    for index := 0 to |types|
      invariant !found
      invariant forall j :: 0 <= j < index ==> types[j] != mimeType
    {
      if mimeType == types[index] {
        found := true;
        break;
      }
    }
  }

  /** The four scans made for one file that is not oversize: document extensions and types, then software ones. */
  method Classify(file: FileInfo) returns (document: bool, software: bool)
    ensures document == LooksLike(file, Document)
    ensures software == LooksLike(file, Software)
  {
    var byName := MatchesExtension(file.name, DocumentExtensions);
    var byType := MatchesType(file.mimeType, DocumentTypes);
    document := byName || byType;
    byName := MatchesExtension(file.name, SoftwareExtensions);
    byType := MatchesType(file.mimeType, SoftwareTypes);
    software := byName || byType;
  }

  /** The scan of the `change` handler: the flags of the chosen files. */
  method ScanFiles(files: seq<FileInfo>) returns (flags: Flags)
    ensures flags == FlagsOf(files)
  {
    var oversize, looksLikeSoftware, looksLikeDocument := false, false, false;
    for fileIndex := 0 to |files|
      invariant !oversize
      invariant fileIndex <= FirstOversize(files)
      invariant looksLikeSoftware == AnyLooksLike(files[..fileIndex], Software)
      invariant looksLikeDocument == AnyLooksLike(files[..fileIndex], Document)
    {
      var file := files[fileIndex];
      assert files[..fileIndex + 1][..fileIndex] == files[..fileIndex];
      if file.size > AttachmentSize {
        oversize := true;
        break;
      }
      var document, software := Classify(file);
      if document {
        looksLikeDocument := true;
      }
      if software {
        looksLikeSoftware := true;
      }
    }
    assert files[..|files|] == files;
    flags := Flags(oversize, looksLikeSoftware, looksLikeDocument);
  }

  /** The file input with the warning paragraph that may follow it. */
  class AttachmentInput {
    var warning: Option<Warning>

    constructor ()
      ensures warning == None
    {
      warning := None;
    }

    /** The `change` handler: the paragraph is created, rewritten or removed to match the files. */
    method OnChange(files: seq<FileInfo>)
      modifies this
      ensures warning == WarningFor(FlagsOf(files))
    {
      var flags := ScanFiles(files);
      if flags.oversize || flags.software || flags.document {
        var html := if flags.oversize then OversizeWarning else if flags.software then SoftwareWarning else DocumentWarning;
        var className := if flags.oversize then Problem else if flags.document then Problem else Legal;
        warning := Some(Warning(html, className));
      } else {
        warning := None;
      }
    }
  }

  /**
   * An oversize file decides the warning, whatever the other files are, and
   * the scan stops there: files after it do not change the flags.
   */
  lemma OversizeDecides(files: seq<FileInfo>, k: nat, later: seq<FileInfo>)
    requires k < |files| && Oversize(files[k])
    ensures WarningFor(FlagsOf(files)) == Some(Warning(OversizeWarning, Problem))
    ensures FlagsOf(files + later) == FlagsOf(files)
  {
    var n := FirstOversize(files);
    FirstOversizeExtends(files, later);
    assert (files + later)[..n] == files[..n];
  }

  lemma {:induction false} FirstOversizeExtends(files: seq<FileInfo>, later: seq<FileInfo>)
    requires FirstOversize(files) < |files|
    ensures FirstOversize(files + later) == FirstOversize(files)
    decreases |files|
  {
    assert (files + later)[0] == files[0];
    if !Oversize(files[0]) {
      assert (files + later)[1..] == files[1..] + later;
      FirstOversizeExtends(files[1..], later);
    }
  }

  /** `AnyLooksLike` is "some file looks like `kind`". */
  lemma {:induction false} AnyLooksLikeSome(files: seq<FileInfo>, kind: Kind)
    ensures AnyLooksLike(files, kind) <==> exists i :: 0 <= i < |files| && LooksLike(files[i], kind)
    decreases |files|
  {
    if files != [] {
      var front := files[..|files| - 1];
      AnyLooksLikeSome(front, kind);
      if exists i :: 0 <= i < |files| && LooksLike(files[i], kind) {
        var i :| 0 <= i < |files| && LooksLike(files[i], kind);
        if i < |front| {
          assert front[i] == files[i];
        }
      }
      if exists i :: 0 <= i < |front| && LooksLike(front[i], kind) {
        var i :| 0 <= i < |front| && LooksLike(front[i], kind);
        assert files[i] == front[i];
      }
    }
  }

  /** Without oversize files a flag is set iff some file looks like its kind. */
  lemma FlagsWithoutOversize(files: seq<FileInfo>)
    requires forall i :: 0 <= i < |files| ==> !Oversize(files[i])
    ensures !FlagsOf(files).oversize
    ensures FlagsOf(files).software <==> exists i :: 0 <= i < |files| && LooksLike(files[i], Software)
    ensures FlagsOf(files).document <==> exists i :: 0 <= i < |files| && LooksLike(files[i], Document)
  {
    assert FirstOversize(files) == |files|;
    assert files[..|files|] == files;
    AnyLooksLikeSome(files, Software);
    AnyLooksLikeSome(files, Document);
  }

  /**
   * Extensions are matched without a dot, so `report.doc` also ends with the
   * software extension `c`: a single such file gets the software text under
   * the `problem` class.
   */
  lemma DocumentNamedLikeSoftware()
    ensures var f := FileInfo("report.doc", 1000, "");
      && LooksLike(f, Document) && LooksLike(f, Software)
      && WarningFor(FlagsOf([f])) == Some(Warning(SoftwareWarning, Problem))
  {
    var f := FileInfo("report.doc", 1000, "");
    assert HasSuffix(f.name, DocumentExtensions[1]);
    assert HasSuffix(f.name, SoftwareExtensions[0]);
    assert [f][0] == f;
    FlagsWithoutOversize([f]);
  }

  /* ---------- the Biosafety Level 3 button ---------- */

  const Bsl3Text := "Confine work with the materials described to Biosafety Level 3 facilities."

  /**
   * The safety text after the button: the prewritten sentence goes in front,
   * separated by a space, unless the text already contains it.
   */
  function WithBsl3(text: string): (r: string)
    ensures Contains(text, Bsl3Text) ==> r == text
    ensures !Contains(text, Bsl3Text) && text == "" ==> r == Bsl3Text
    ensures !Contains(text, Bsl3Text) && text != "" ==> r == Bsl3Text + " " + text
    ensures Contains(r, Bsl3Text)
  {
    if Contains(text, Bsl3Text) then text
    else if text != "" then
      ContainsPrefix(Bsl3Text, " " + text);
      assert Bsl3Text + " " + text == Bsl3Text + (" " + text);
      Bsl3Text + " " + text
    else
      ContainsPrefix(Bsl3Text, "");
      assert Bsl3Text + "" == Bsl3Text;
      Bsl3Text
  }

  /** Pressing the button twice is pressing it once. */
  lemma WithBsl3Idempotent(text: string)
    ensures WithBsl3(WithBsl3(text)) == WithBsl3(text)
  {
  }

  /** The safety textarea. */
  class SafetyTextarea {
    var value: string

    constructor (value: string)
      ensures this.value == value
    {
      this.value := value;
    }

    /** The button's `click` handler. */
    method OnBsl3Click()
      modifies this
      ensures value == WithBsl3(old(value))
    {
      if Contains(value, Bsl3Text) {
        return;
      }
      if value != "" {
        value := Bsl3Text + " " + value;
      } else {
        value := Bsl3Text;
      }
    }
  }

  /* ---------- the "Add Another" button ---------- */

  /**
   * A section's list of inputs with its "Add Another" button. Each click
   * appends a copy of the first item with its input cleared, and the button
   * goes away once the list holds `max` items.
   */
  class AddAnotherList {
    const max: int
    /** The values of the list's inputs, in order. */
    var values: seq<string>
    var hasButton: bool
    /** The items the page was served with. */
    ghost const initial: seq<string>

    /**
     * The served items are kept, every added item starts empty, and while the
     * button is there after a click the list is shorter than `max`: clicks
     * never take a list served with fewer than `max` items past `max`.
     */
    ghost predicate Valid()
      reads this
    {
      && |initial| <= |values|
      && values[..|initial|] == initial
      && (forall i :: |initial| <= i < |values| ==> values[i] == "")
      && (|values| > |initial| && hasButton ==> |values| < max)
      && (!hasButton ==> |values| > |initial| && |values| >= max)
      && |values| <= (if |initial| < max then max else |initial| + 1)
    }

    constructor (initial: seq<string>, max: int)
      requires |initial| >= 1
      ensures Valid() && this.initial == initial && this.max == max
      ensures values == initial && hasButton
    {
      this.max := max;
      this.initial := initial;
      values := initial;
      hasButton := true;
    }

    /** The button's `click` handler. */
    method OnClick()
      requires Valid() && hasButton
      modifies this
      ensures Valid()
      ensures values == old(values) + [""]
      ensures hasButton <==> |values| < max
    {
      values := values + [""];
      if |values| > max - 1 {
        hasButton := false;
      }
      assert values[..|initial|] == old(values)[..|initial|];
    }
  }

  /* ---------- the word count ---------- */

  /** The label under a prose textarea, given its word count. */
  function WordCountLabel(count: nat): (shown: string)
    ensures shown == NatToString(count) + (if count == 1 then " word" else " words")
  {
    if count == 1 then "1 word" else NatToString(count) + " words"
  }

  /** Different counts get different labels. */
  lemma WordCountLabelInjective(a: nat, b: nat)
    requires WordCountLabel(a) == WordCountLabel(b)
    ensures a == b
  {
    var s := if a == 1 then " word" else " words";
    var t := if b == 1 then " word" else " words";
    RenderedPrefixUnique(a, b, s, t);
  }
}
