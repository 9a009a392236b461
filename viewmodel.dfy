/**
 * `MainViewModel`: the settings the user edits, the file selection, the
 * status line and the conversion flow around `convertCbzToPdf`. The
 * Android side (display names, parent folders, the Mihon parent map,
 * opening a selected file) is a `Device` of oracles.
 */
module ViewModel {
  import opened Wrappers
  import opened Strings
  import opened DisplayName
  import opened Naming
  import opened Conflicts
  import opened Archive
  import opened Pdf
  import opened Combine
  import Plan
  import Convert

  const NothingProcessing: string := "Idle"
  const NoFileSelected: string := "No file"
  const DefaultMaxNumberOfPages: int := 10000
  const DefaultBatchSize: int := 200

  /** A display-name lookup that, like `getFileName`, yields "Unknown" or a non-blank name. */
  type NameLookup = f: Uri -> string | forall u :: f(u) == Fallback || !IsBlank(f(u))
    witness (u: Uri) => Fallback

  /** `Uri.getFileName()`: `getFileName` over what Android reports for the uri. */
  function AndroidNames(displayName: Uri -> Option<string>, documentName: Uri -> Option<string>,
                        decode: string -> string): (f: NameLookup)
    ensures forall u :: f(u) == GetFileName(u, displayName(u), documentName(u), decode)
  {
    var g := (u: Uri) => GetFileName(u, displayName(u), documentName(u), decode);
    assert forall u :: g(u) == Fallback || !IsBlank(g(u)) by {
      forall u ensures g(u) == Fallback || !IsBlank(g(u)) {
        assert g(u) == GetFileName(u, displayName(u), documentName(u), decode);
      }
    }
    g
  }

  /** What the view model asks Android about a selected file. */
  datatype Device = Device(
    fileName: NameLookup,                 // `uri.getFileName()`
    parentUri: Uri -> Option<Uri>,        // `DocumentFile.fromSingleUri(...)?.parentFile?.uri`
    parentName: Uri -> Option<string>,    // the parent's name, else the second-last path segment
    mihonParents: map<Uri, string>,       // `cbzParentName`, filled by the Mihon scan
    open: Uri -> Source)                  // the file behind the uri

  function FileName(d: Device, u: Uri): (r: string)
    ensures r == Fallback || !IsBlank(r)
  {
    d.fileName(u)
  }

  /** What `getPdfFileNames` reads about one file. */
  function Info(d: Device, u: Uri): FileInfo
  {
    FileInfo(FileName(d, u), d.parentName(u), if u in d.mihonParents then Some(d.mihonParents[u]) else None)
  }

  function Infos(d: Device, uris: seq<Uri>): (r: seq<FileInfo>)
    ensures |r| == |uris| && forall i :: 0 <= i < |uris| ==> r[i] == Info(d, uris[i])
  {
    seq(|uris|, i requires 0 <= i < |uris| => Info(d, uris[i]))
  }

  function Sources(d: Device, uris: seq<Uri>): (r: seq<Source>)
    ensures |r| == |uris| && forall i :: 0 <= i < |uris| ==> r[i] == d.open(uris[i])
  {
    seq(|uris|, i requires 0 <= i < |uris| => d.open(uris[i]))
  }

  // ------------------------------------------------------ user input

  /** `input.trim().toIntOrNull()` when it is a positive `Int`. */
  function PositiveInput(input: string): (r: Option<int>)
    ensures r.Some? ==> 0 < r.value <= MaxInt && ParseInt(Trim(input)) == r
    ensures r.None? ==> ParseInt(Trim(input)).None? || ParseInt(Trim(input)).value <= 0
  {
    match ParseInt(Trim(input))
    case Some(n) => if n > 0 then Some(n) else None
    case None => None
  }

  /** Trimming drops blank padding around a text with non-blank ends. */
  lemma {:induction false} TrimAround(pre: string, x: string, post: string)
    requires IsBlank(pre) && IsBlank(post)
    requires x != [] && !IsWhitespace(x[0]) && !IsWhitespace(x[|x| - 1])
    ensures Trim(pre + x + post) == x
  {
    TrimStartPast(pre, x + post);
    assert pre + x + post == pre + (x + post);
    TrimEndPast(x, post);
  }

  lemma {:induction false} TrimStartPast(pre: string, y: string)
    requires IsBlank(pre) && y != [] && !IsWhitespace(y[0])
    ensures TrimStart(pre + y, IsWhitespace) == y
  {
    if pre != [] {
      assert (pre + y)[1..] == pre[1..] + y;
      TrimStartPast(pre[1..], y);
    }
  }

  lemma {:induction false} TrimEndPast(x: string, post: string)
    requires IsBlank(post) && x != [] && !IsWhitespace(x[|x| - 1])
    ensures TrimEnd(x + post, IsWhitespace) == x
  {
    if post != [] {
      assert (x + post)[..|x + post| - 1] == x + post[..|post| - 1];
      TrimEndPast(x, post[..|post| - 1]);
    } else {
      assert x + post == x;
    }
  }

  /**
   * A number typed with any blank padding is read back: kept when
   * positive, refused otherwise.
   */
  lemma PositiveInputRoundTrip(pre: string, n: int, post: string)
    requires MinInt <= n <= MaxInt && IsBlank(pre) && IsBlank(post)
    ensures PositiveInput(pre + IntToString(n) + post) == if n > 0 then Some(n) else None
  {
    var x := IntToString(n);
    assert !IsWhitespace(x[0]) && !IsWhitespace(x[|x| - 1]) by {
      if n >= 0 {
        assert IsDigit(x[0]) && IsDigit(x[|x| - 1]);
      } else {
        assert x[1..][|x| - 2] == x[|x| - 1];
        assert IsDigit(x[|x| - 1]);
      }
    }
    TrimAround(pre, x, post);
    ParseIntRoundTrip(n);
  }

  /** The stored value of a numeric setting: the input if valid, else the default. */
  function SettingFromInput(input: string, default: int): (r: int)
    requires default > 0
    ensures r > 0
    ensures PositiveInput(input).Some? ==> r == PositiveInput(input).value
    ensures PositiveInput(input).None? ==> r == default
  {
    match PositiveInput(input)
    case Some(n) => n
    case None => default
  }

  function MaxPagesMessage(input: string): string
  {
    match PositiveInput(input)
    case Some(n) => "Max pages: " + IntToString(n)
    case None => "Max pages invalid (" + input + "). Using " + IntToString(DefaultMaxNumberOfPages)
  }

  function BatchSizeMessage(input: string): string
  {
    match PositiveInput(input)
    case Some(n) => "Batch size: " + IntToString(n)
    case None => "Batch size invalid (" + input + "). Using " + IntToString(DefaultBatchSize)
  }

  /** An override as the view model keeps it: empty, or trimmed and not blank. */
  predicate NormalOverride(o: string)
  {
    o == "" || (!IsBlank(o) && Trim(o) == o)
  }

  /** The override stored for a typed name: "" when blank, the trimmed text otherwise. */
  function OverrideFromInput(input: string): (r: string)
    ensures NormalOverride(r)
    ensures r == "" <==> IsBlank(input)
  {
    if IsBlank(input) then ""
    else
      var t := Trim(input);
      BlankIffTrimEmpty(input);
      TrimIdempotent(input);
      BlankIffTrimEmpty(t);
      t
  }

  /** Storing an override name a second time changes nothing. */
  lemma OverrideFromInputIdempotent(input: string)
    ensures OverrideFromInput(OverrideFromInput(input)) == OverrideFromInput(input)
  {
    if !IsBlank(input) {
      TrimIdempotent(input);
    }
  }

  function OverrideMessage(input: string): string
  {
    if IsBlank(input) then "Output name: default" else "Output name: " + OverrideFromInput(input)
  }

  // ------------------------------------------------------- selection

  /** `MutableList.remove(u)`: drops the first occurrence. */
  function RemoveFirst(s: seq<Uri>, u: Uri): (r: seq<Uri>)
    ensures u !in s ==> r == s
    ensures u in s ==> |r| == |s| - 1
    ensures multiset(r) == multiset(s) - multiset{u}
  {
    if s == [] then []
    else if s[0] == u then
      assert s == [s[0]] + s[1..];
      s[1..]
    else
      assert s == [s[0]] + s[1..];
      [s[0]] + RemoveFirst(s[1..], u)
  }

  /** Removing drops exactly the first occurrence and keeps the rest in order. */
  lemma {:induction false} RemoveFirstSplit(a: seq<Uri>, u: Uri, b: seq<Uri>)
    requires u !in a
    ensures RemoveFirst(a + [u] + b, u) == a + b
  {
    if a == [] {
      assert a + [u] + b == [u] + b;
    } else {
      var s, t := a + [u] + b, a[1..] + [u] + b;
      assert RemoveFirst(s, u) == [a[0]] + RemoveFirst(t, u) by {
        assert s[0] == a[0] && s[0] != u;
        assert s[1..] == t;
      }
      assert RemoveFirst(t, u) == a[1..] + b by {
        assert u !in a[1..];
        RemoveFirstSplit(a[1..], u, b);
      }
      assert a + b == [a[0]] + (a[1..] + b);
    }
  }

  /** `toggleFileSelection`'s new list: remove the uri if present, add it at the end if not. */
  function Toggled(s: seq<Uri>, u: Uri): (r: seq<Uri>)
    ensures u in s ==> multiset(r) == multiset(s) - multiset{u}
    ensures u !in s ==> multiset(r) == multiset(s) + multiset{u}
  {
    if u in s then RemoveFirst(s, u) else s + [u]
  }

  predicate Distinct(s: seq<Uri>)
  {
    forall i, j :: 0 <= i < j < |s| ==> s[i] != s[j]
  }

  /**
   * On a list without repeats, toggling flips the uri's membership, keeps
   * every other uri and their order, and leaves no repeat.
   */
  lemma ToggledFlips(a: seq<Uri>, u: Uri, b: seq<Uri>)
    requires Distinct(a + [u] + b)
    ensures Toggled(a + [u] + b, u) == a + b
    ensures Toggled(a + b, u) == a + b + [u]
    ensures Distinct(a + b) && u !in a + b
  {
    var s := a + [u] + b;
    assert s[|a|] == u;
    assert u !in a by {
      forall i | 0 <= i < |a| ensures a[i] != u { assert s[i] == a[i]; }
    }
    assert u !in b by {
      forall i | 0 <= i < |b| ensures b[i] != u { assert s[|a| + 1 + i] == b[i]; }
    }
    RemoveFirstSplit(a, u, b);
    var t := a + b;
    forall i, j | 0 <= i < j < |t| ensures t[i] != t[j] {
      var i' := if i < |a| then i else i + 1;
      var j' := if j < |a| then j else j + 1;
      assert t[i] == s[i'] && t[j] == s[j'];
    }
  }

  /** Toggling a uri that is absent and then toggling it again restores the list. */
  lemma ToggledTwice(s: seq<Uri>, u: Uri)
    requires u !in s
    ensures Toggled(Toggled(s, u), u) == s
  {
    RemoveFirstSplit(s, u, []);
    assert s + [u] + [] == s + [u];
    assert s + [] == s;
  }

  /**
   * `areSelectedFilesFromSameParent`: at most one file, or every parent
   * equal to the first one's; the same as all parents pairwise equal.
   */
  function SameParent(uris: seq<Uri>, parentOf: Uri -> Option<Uri>): (b: bool)
    ensures b <==> forall i, j :: 0 <= i < |uris| && 0 <= j < |uris| ==> parentOf(uris[i]) == parentOf(uris[j])
  {
    |uris| <= 1 || forall k :: 0 <= k < |uris| ==> parentOf(uris[k]) == parentOf(uris[0])
  }

  /** `joinToString("\n")`. */
  function JoinLines(parts: seq<string>): string
  {
    if parts == [] then ""
    else if |parts| == 1 then parts[0]
    else JoinLines(parts[..|parts| - 1]) + "\n" + parts[|parts| - 1]
  }

  lemma BlankConcat(a: string, b: string)
    ensures IsBlank(a + b) <==> IsBlank(a) && IsBlank(b)
  {
    if IsBlank(a) && IsBlank(b) {
      forall k | 0 <= k < |a + b| ensures IsWhitespace((a + b)[k]) {
        if k >= |a| { assert (a + b)[k] == b[k - |a|]; }
      }
    }
    if IsBlank(a + b) {
      forall k | 0 <= k < |b| ensures IsWhitespace(b[k]) { assert (a + b)[|a| + k] == b[k]; }
      forall k | 0 <= k < |a| ensures IsWhitespace(a[k]) { assert (a + b)[k] == a[k]; }
    }
  }

  /** The joined names are blank exactly when every name is. */
  lemma {:induction false} JoinLinesBlank(parts: seq<string>)
    ensures IsBlank(JoinLines(parts)) <==> forall i :: 0 <= i < |parts| ==> IsBlank(parts[i])
  {
    if |parts| > 1 {
      var init := parts[..|parts| - 1];
      JoinLinesBlank(init);
      BlankConcat(JoinLines(init) + "\n", parts[|parts| - 1]);
      BlankConcat(JoinLines(init), "\n");
      assert IsWhitespace('\n');
      assert forall i :: 0 <= i < |init| ==> init[i] == parts[i];
    }
  }

  function FileNames(d: Device, uris: seq<Uri>): (r: seq<string>)
    ensures |r| == |uris| && forall i :: 0 <= i < |uris| ==> r[i] == FileName(d, uris[i])
  {
    seq(|uris|, i requires 0 <= i < |uris| => FileName(d, uris[i]))
  }

  /** A selection's joined display names are blank exactly when nothing is selected. */
  lemma SelectionNameBlank(d: Device, uris: seq<Uri>)
    ensures IsBlank(JoinLines(FileNames(d, uris))) <==> uris == []
  {
    JoinLinesBlank(FileNames(d, uris));
    if uris != [] {
      var n := FileName(d, uris[0]);
      if n == Fallback {
        assert !IsWhitespace(n[0]);
      }
    }
  }

  // ----------------------------------------------------- conversion

  /** `handlePdfResult`'s message for a non-empty result. */
  function SavedMessage(files: seq<Path>, absolutePath: Path -> string): string
    requires files != []
  {
    if |files| == 1 then "Saved: " + absolutePath(files[0]) else "Saved: " + NatToString(|files|) + " PDFs"
  }

  /** The status lines the job puts on top of `prior`. */
  function ResultTask(files: seq<Path>, absolutePath: Path -> string, prior: string): string
  {
    if files == [] then "Failed: No PDFs created" + "\n" + prior
    else "Completed" + "\n" + (SavedMessage(files, absolutePath) + "\n" + prior)
  }

  /**
   * The sub-status after `appendSubTask` of each line in turn, starting
   * from `base`: the newest line on top.
   */
  function Stacked(lines: seq<Status>, base: string): string
  {
    if lines == [] then base
    else Text(lines[|lines| - 1]) + "\n" + Stacked(lines[..|lines| - 1], base)
  }

  /** Stacking more lines puts them on top of what was stacked before. */
  lemma {:induction false} StackedAppend(a: seq<Status>, b: seq<Status>, base: string)
    ensures Stacked(a + b, base) == Stacked(b, Stacked(a, base))
  {
    if b == [] {
      assert a + b == a;
    } else {
      var init := b[..|b| - 1];
      assert (a + b)[..|a + b| - 1] == a + init;
      StackedAppend(a, init, base);
    }
  }

  /** The earlier sub-status stays at the bottom, with one line per stacked line above it. */
  lemma {:induction false} StackedKeepsBase(lines: seq<Status>, base: string)
    ensures var r := Stacked(lines, base);
      |base| + |lines| <= |r| && r[|r| - |base|..] == base
  {
    if lines != [] {
      var init := lines[..|lines| - 1];
      StackedKeepsBase(init, base);
      var t, rest := Text(lines[|lines| - 1]) + "\n", Stacked(init, base);
      assert Stacked(lines, base) == t + rest;
      assert (t + rest)[|t + rest| - |base|..] == rest[|rest| - |base|..];
    }
  }

  // ----------------------------------------------------- the class

  class MainViewModel {
    const device: Device
    var converting: bool
    var task: string
    var subTask: string
    var maxPages: int
    var batchSize: int
    var useOffset: bool
    var merge: bool
    var selectedFileName: string
    var selected: seq<Uri>
    var overrideName: string
    var compress: bool
    var autoChapters: bool

    /** What every mutator keeps: positive sizes and a normalised override. */
    predicate Valid()
      reads this
    {
      maxPages > 0 && batchSize > 0 && NormalOverride(overrideName)
    }

    constructor (device: Device)
      ensures Valid()
      ensures this.device == device && !converting
      ensures task == NothingProcessing && subTask == NothingProcessing
      ensures maxPages == DefaultMaxNumberOfPages && batchSize == DefaultBatchSize
      ensures !useOffset && !merge && !compress && !autoChapters
      ensures selectedFileName == NoFileSelected && selected == [] && overrideName == ""
    {
      this.device := device;
      converting := false;
      task := NothingProcessing;
      subTask := NothingProcessing;
      maxPages := DefaultMaxNumberOfPages;
      batchSize := DefaultBatchSize;
      useOffset := false;
      merge := false;
      selectedFileName := NoFileSelected;
      selected := [];
      overrideName := "";
      compress := false;
      autoChapters := false;
    }

    /** The settings `getPdfFileNames` reads right now. */
    function Settings(): NameSettings
      reads this
    {
      NameSettings(overrideName, merge, autoChapters, SameParent(selected, device.parentUri))
    }

    method ToggleOverrideSortOrderToUseOffset(newValue: bool)
      modifies `useOffset
      ensures useOffset == newValue
    {
      useOffset := newValue;
    }

    method ToggleMergeFilesOverride(newValue: bool)
      modifies `merge
      ensures merge == newValue
    {
      merge := newValue;
    }

    method ToggleCompressOutputPdf(newValue: bool)
      modifies `compress
      ensures compress == newValue
    {
      compress := newValue;
    }

    method ToggleAutoNameWithChapters(newValue: bool)
      modifies `autoChapters
      ensures autoChapters == newValue
    {
      autoChapters := newValue;
    }

    method SetTask(message: string)
      modifies `task
      ensures task == message
    {
      task := message;
    }

    /** The newest message goes on top. */
    method AppendTask(message: string)
      modifies `task
      ensures task == message + "\n" + old(task)
    {
      task := message + "\n" + task;
    }

    method SetSubTask(message: string)
      modifies `subTask
      ensures subTask == message
    {
      subTask := message;
    }

    /** `appendSubTask`: the newest sub-step line goes on top. */
    method AppendSubTask(message: string)
      modifies `subTask
      ensures subTask == message + "\n" + old(subTask)
    {
      subTask := message + "\n" + subTask;
    }

    /** Each line the job sends to `subStepStatusAction`, handed to `appendSubTask` in order. */
    method AppendSubTasks(lines: seq<Status>)
      modifies `subTask
      ensures subTask == Stacked(lines, old(subTask))
    {
      for i := 0 to |lines|
        invariant subTask == Stacked(lines[..i], old(subTask))
      {
        assert lines[..i + 1][..i] == lines[..i];
        AppendSubTask(Text(lines[i]));
      }
      assert lines[..|lines|] == lines;
    }

    method UpdateMaxNumberOfPagesSizeFromUserInput(input: string)
      requires Valid()
      modifies `maxPages, `task
      ensures Valid()
      ensures maxPages == SettingFromInput(input, DefaultMaxNumberOfPages)
      ensures task == MaxPagesMessage(input) + "\n" + old(task)
    {
      var parsed := PositiveInput(input);
      if parsed.Some? {
        maxPages := parsed.value;
        AppendTask("Max pages: " + IntToString(parsed.value));
      } else {
        AppendTask("Max pages invalid (" + input + "). Using " + IntToString(DefaultMaxNumberOfPages));
        maxPages := DefaultMaxNumberOfPages;
      }
    }

    method UpdateBatchSizeFromUserInput(input: string)
      requires Valid()
      modifies `batchSize, `task
      ensures Valid()
      ensures batchSize == SettingFromInput(input, DefaultBatchSize)
      ensures task == BatchSizeMessage(input) + "\n" + old(task)
    {
      var parsed := PositiveInput(input);
      if parsed.Some? {
        batchSize := parsed.value;
        AppendTask("Batch size: " + IntToString(parsed.value));
      } else {
        AppendTask("Batch size invalid (" + input + "). Using " + IntToString(DefaultBatchSize));
        batchSize := DefaultBatchSize;
      }
    }

    method UpdateOverrideFileNameFromUserInput(input: string)
      requires Valid()
      modifies `overrideName, `task
      ensures Valid()
      ensures overrideName == OverrideFromInput(input)
      ensures task == OverrideMessage(input) + "\n" + old(task)
    {
      if IsBlank(input) {
        overrideName := "";
        AppendTask("Output name: default");
      } else {
        overrideName := Trim(input);
        assert overrideName == OverrideFromInput(input);
        AppendTask("Output name: " + overrideName);
      }
    }

    /** `updateSelectedFileNameFromUserInput`: new names also clear the override. */
    method UpdateSelectedFileNameFromUserInput(names: string)
      requires Valid()
      modifies `selectedFileName, `overrideName, `task
      ensures Valid()
      ensures IsBlank(names) ==>
        selectedFileName == "" && overrideName == old(overrideName) && task == "Selected: none" + "\n" + old(task)
      ensures !IsBlank(names) ==>
        selectedFileName == names && overrideName == ""
        && task == "Selected: updated" + "\n" + ("Output name: default" + "\n" + old(task))
    {
      if IsBlank(names) {
        AppendTask("Selected: none");
        selectedFileName := "";
      } else {
        selectedFileName := names;
        UpdateOverrideFileNameFromUserInput("");
        AppendTask("Selected: updated");
      }
    }

    /** The state after the selection was replaced by `uris`. */
    twostate predicate SelectionApplied(uris: seq<Uri>)
      reads this
    {
      var names := JoinLines(FileNames(device, uris));
      && selected == uris
      && selectedFileName == (if IsBlank(names) then "" else names)
      && overrideName == (if IsBlank(names) then old(overrideName) else "")
      && task == "Selected " + NatToString(|uris|) + " file(s)"
      && subTask == "Ready to convert"
      && merge == (old(merge) && SameParent(uris, device.parentUri))
    }

    /**
     * `updateSelectedFileUrisFromUserInput`: the merge flag survives only
     * a selection whose files share one parent.
     */
    method UpdateSelectedFileUrisFromUserInput(uris: seq<Uri>)
      requires Valid()
      modifies `selected, `selectedFileName, `overrideName, `task, `subTask, `merge
      ensures Valid()
      ensures SelectionApplied(uris)
    {
      selected := uris;
      var names := JoinLines(FileNames(device, uris));
      UpdateSelectedFileNameFromUserInput(names);
      SetTask("Selected " + NatToString(|uris|) + " file(s)");
      SetSubTask("Ready to convert");
      if !SameParent(selected, device.parentUri) {
        merge := false;
      }
    }

    method ToggleFileSelection(u: Uri)
      requires Valid()
      modifies `selected, `selectedFileName, `overrideName, `task, `subTask, `merge
      ensures Valid()
      ensures SelectionApplied(Toggled(old(selected), u))
    {
      var current := selected;
      if u in current {
        current := RemoveFirst(current, u);
      } else {
        current := current + [u];
      }
      UpdateSelectedFileUrisFromUserInput(current);
    }

    /**
     * `convertToPDF` up to the launch: a merge over files of different
     * parents is switched off first, and nothing is launched while a
     * conversion is running.
     */
    method ConvertToPdf() returns (launched: bool)
      modifies `task, `merge, `converting
      ensures merge == (old(merge) && SameParent(selected, device.parentUri))
      ensures task == if old(merge) && !SameParent(selected, device.parentUri)
                      then "Merge disabled: files from different manga\n" + old(task) else old(task)
      ensures launched <==> !old(converting)
      ensures converting
    {
      if merge && !SameParent(selected, device.parentUri) {
        AppendTask("Merge disabled: files from different manga");
        merge := false;
      }
      if converting {
        return false;
      }
      converting := true;
      launched := true;
    }

    /**
     * The launched job: name the outputs, resolve them against the output
     * folder's listing, convert, and report; `converting` ends false.
     * A missing first manga name (`first()` of an empty list) fails the job.
     */
    method RunConversion(fileUris: seq<Uri>, useParentDirectoryName: bool, ws: Workspace,
                         decode: Entry -> Decoded, copy: Entry -> Copy, absolutePath: Path -> string)
      returns (pdfNames: seq<string>, files: seq<Path>)
      requires Valid()
      modifies `task, `subTask, `converting, ws
      ensures Valid() && !converting
      ensures var proposed := GetPdfFileNames(Infos(device, fileUris), useParentDirectoryName, old(Settings()));
        && (proposed.None? ==>
              && pdfNames == [] && files == []
              && task == "Failed: List is empty." + "\n" + old(task) && subTask == old(subTask)
              && ws.output == old(ws.output) && ws.cache == old(ws.cache) && ws.log == old(ws.log))
        && (proposed.Some? ==> Converted(fileUris, proposed.value, ws, decode, copy, absolutePath, pdfNames, files))
    {
      var proposed := GetPdfFileNames(Infos(device, fileUris), useParentDirectoryName, Settings());
      if proposed.None? {
        AppendTask("Failed: List is empty.");
        converting := false;
        return [], [];
      }
      pdfNames, files := ConvertNamed(fileUris, proposed.value, ws, decode, copy, absolutePath);
    }

    /**
     * The state a job with the proposed names `proposed` leaves: the names
     * resolved against the earlier listing of the output folder, the
     * folder, the cache and the status lines as `convertCbzToPdf` and
     * `handlePdfResult` leave them.
     */
    twostate predicate Converted(fileUris: seq<Uri>, proposed: seq<string>, ws: Workspace, decode: Entry -> Decoded,
                                 copy: Entry -> Copy, absolutePath: Path -> string, pdfNames: seq<string>,
                                 files: seq<Path>)
      reads this, ws
    {
      && Resolution(proposed, old(ws.output).Keys, pdfNames)
      && task == ResultTask(files, absolutePath, "Converting...")
      && (fileUris == [] ==>
            && files == [] && ws.output == old(ws.output) && ws.cache == old(ws.cache) && ws.log == old(ws.log)
            && subTask == "")
      && (fileUris != [] && maxPages > 0 && batchSize > 0 && |fileUris| <= |pdfNames| ==>
            var arts := Convert.JobArtifacts(Sources(device, fileUris), pdfNames, merge, useOffset, maxPages as nat,
                                             compress, decode, copy);
            var lines := Convert.JobLog(Sources(device, fileUris), pdfNames, merge, useOffset,
                                        maxPages as nat, batchSize as nat, decode, copy);
            && files == Plan.FilesOf(arts)
            && ws.output == Plan.ApplyWrites(old(ws.output), arts)
            && ws.cache == map[]
            && ws.log == old(ws.log) + lines
            && subTask == Stacked(lines, ""))
    }

    /** The job once `getPdfFileNames` produced `proposed`. */
    method ConvertNamed(fileUris: seq<Uri>, proposed: seq<string>, ws: Workspace,
                        decode: Entry -> Decoded, copy: Entry -> Copy, absolutePath: Path -> string)
      returns (pdfNames: seq<string>, files: seq<Path>)
      requires Valid() && (fileUris != [] ==> |proposed| == |fileUris|)
      modifies `task, `subTask, `converting, ws
      ensures Valid() && !converting
      ensures fileUris != [] ==> |pdfNames| == |fileUris|
      ensures Converted(fileUris, proposed, ws, decode, copy, absolutePath, pdfNames, files)
    {
      pdfNames := ResolveFileNameConflicts(proposed, ws.output.Keys);
      SetTask("Converting...");
      SetSubTask("");
      files := ConvertWithSubTasks(ws, Sources(device, fileUris), pdfNames, decode, copy);
      ReportResult(files, absolutePath);
      converting := false;
    }

    /** `convertCbzToPdf` with every sub-step line handed to `appendSubTask` as it is sent. */
    method ConvertWithSubTasks(ws: Workspace, sources: seq<Source>, pdfNames: seq<string>,
                               decode: Entry -> Decoded, copy: Entry -> Copy)
      returns (files: seq<Path>)
      requires maxPages > 0 && batchSize > 0 && |sources| <= |pdfNames|
      modifies `subTask, ws
      ensures sources == [] ==>
        && files == [] && ws.output == old(ws.output) && ws.cache == old(ws.cache) && ws.log == old(ws.log)
        && subTask == old(subTask)
      ensures sources != [] ==>
        var arts := Convert.JobArtifacts(sources, pdfNames, merge, useOffset, maxPages as nat, compress, decode, copy);
        var lines := Convert.JobLog(sources, pdfNames, merge, useOffset, maxPages as nat, batchSize as nat,
                                    decode, copy);
        && files == Plan.FilesOf(arts)
        && ws.output == Plan.ApplyWrites(old(ws.output), arts)
        && ws.cache == map[]
        && ws.log == old(ws.log) + lines
        && subTask == Stacked(lines, old(subTask))
    {
      var log0 := |ws.log|;
      files := Convert.ConvertCbzToPdf(ws, sources, pdfNames, merge, useOffset, maxPages as nat, batchSize as nat,
                                       compress, decode, copy);
      AppendSubTasks(ws.log[log0..]);
    }

    /** `handlePdfResult`: the failure line, or the saved files followed by "Completed". */
    method ReportResult(files: seq<Path>, absolutePath: Path -> string)
      modifies `task
      ensures task == ResultTask(files, absolutePath, old(task))
    {
      if files == [] {
        AppendTask("Failed: No PDFs created");
      } else {
        AppendTask(SavedMessage(files, absolutePath));
        AppendTask("Completed");
      }
    }
  }
}
