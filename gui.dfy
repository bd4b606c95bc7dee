/** The bookkeeping of the main window in gui/main_window.py: the `input_files` list
    behind the file list box, and the counting and progress arithmetic of the worker
    that compresses the listed files. Dialogs, the file system walk and the compressor
    are inputs; widgets are not modelled. */
module Gui {

  import opened Wrappers
  import opened Text
  import opened Paths
  import opened CompressorSettings
  import opened Config
  import opened Cli

  // ---------------------------------------------------------------------------
  // Adding to the list

  /** `list` after offering each candidate in turn, appending those not already present. */
  function Appended(list: seq<string>, candidates: seq<string>): (r: seq<string>)
    ensures |list| <= |r| <= |list| + |candidates| && r[..|list|] == list
  {
    if candidates == [] then list
    else
      var k := |candidates| - 1;
      var prev := Appended(list, candidates[..k]);
      if candidates[k] in prev then prev
      else
        assert (prev + [candidates[k]])[..|list|] == prev[..|list|];
        prev + [candidates[k]]
  }

  /** Exactly the old entries and the candidates are listed afterwards. */
  lemma {:induction false} AppendedMembers(list: seq<string>, candidates: seq<string>)
    ensures forall x :: x in Appended(list, candidates) <==> x in list || x in candidates
    decreases |candidates|
  {
    if candidates != [] {
      var k := |candidates| - 1;
      AppendedMembers(list, candidates[..k]);
      assert candidates == candidates[..k] + [candidates[k]];
    }
  }

  /** A list without repeats stays without repeats. */
  lemma {:induction false} AppendedDistinct(list: seq<string>, candidates: seq<string>)
    requires Distinct(list)
    ensures Distinct(Appended(list, candidates))
    decreases |candidates|
  {
    if candidates != [] {
      var k := |candidates| - 1;
      AppendedDistinct(list, candidates[..k]);
    }
  }

  /** Offering in two batches is offering the concatenation. */
  lemma {:induction false} AppendedConcat(list: seq<string>, a: seq<string>, b: seq<string>)
    ensures Appended(Appended(list, a), b) == Appended(list, a + b)
    decreases |b|
  {
    var c := a + b;
    if b == [] {
      assert c == a;
    } else {
      var k := |b| - 1;
      AppendedConcat(list, a, b[..k]);
      assert c[..|c| - 1] == a + b[..k];
      assert c[|c| - 1] == b[k];
    }
  }

  /** One step of a walk: a directory and the names of the files directly in it. */
  datatype WalkDir = WalkDir(root: string, files: seq<string>)

  /** The full paths of the files of one directory whose suffix is a video extension. */
  function DirCandidates(root: string, files: seq<string>): seq<string>
  {
    if files == [] then []
    else
      var k := |files| - 1;
      DirCandidates(root, files[..k]) + (if IsAcceptedVideo(files[k]) then [JoinPath(root, files[k])] else [])
  }

  /** The candidates of an `os.walk` in walk order. */
  function WalkCandidates(walk: seq<WalkDir>): seq<string>
  {
    if walk == [] then []
    else
      var k := |walk| - 1;
      WalkCandidates(walk[..k]) + DirCandidates(walk[k].root, walk[k].files)
  }

  /** What a drop hands over: a file, a directory with its walk, or something else. */
  datatype Dropped = DroppedFile(path: string) | DroppedDir(walk: seq<WalkDir>) | DroppedOther

  function DropCandidates(items: seq<Dropped>): seq<string>
  {
    if items == [] then []
    else
      var k := |items| - 1;
      DropCandidates(items[..k]) + ItemCandidates(items[k])
  }

  /** The candidates one dropped item offers. */
  function ItemCandidates(item: Dropped): seq<string>
  {
    match item
    case DroppedFile(p) => if IsAcceptedVideo(p) then [p] else []
    case DroppedDir(w) => WalkCandidates(w)
    case DroppedOther => []
  }

  lemma DropStep(items: seq<Dropped>, i: nat)
    requires i < |items|
    ensures DropCandidates(items[..i + 1]) == DropCandidates(items[..i]) + ItemCandidates(items[i])
  {
    assert items[..i + 1][..i] == items[..i];
  }

  /** The list behind the main window's file list box, and its status line. */
  class FileList {
    var inputFiles: seq<string>
    var status: string

    constructor()
      ensures inputFiles == [] && status == ""
    {
      inputFiles := [];
      status := "";
    }

    /** Append `path` unless it is listed already. */
    method Offer(path: string) returns (added: bool)
      modifies this
      ensures inputFiles == Appended(old(inputFiles), [path]) && status == old(status)
      ensures added == (path !in old(inputFiles))
      ensures |inputFiles| == |old(inputFiles)| + (if added then 1 else 0)
    {
      assert [path][..0] == [];
      if path !in inputFiles {
        inputFiles := inputFiles + [path];
        added := true;
      } else {
        added := false;
      }
    }

    /** `add_files`: the chosen files are appended in order, each unless already listed. */
    method AddFiles(files: seq<string>)
      modifies this
      ensures inputFiles == Appended(old(inputFiles), files)
      ensures status == NatToString(|inputFiles|) + " files selected"
    {
      for i := 0 to |files|
        invariant inputFiles == Appended(old(inputFiles), files[..i])
      {
        var _ := Offer(files[i]);
        AppendedConcat(old(inputFiles), files[..i], [files[i]]);
        assert files[..i] + [files[i]] == files[..i + 1];
      }
      assert files[..|files|] == files;
      status := NatToString(|inputFiles|) + " files selected";
    }

    /** The inner loop over one directory of a walk. */
    method OfferDir(root: string, files: seq<string>) returns (added: nat)
      modifies this
      ensures inputFiles == Appended(old(inputFiles), DirCandidates(root, files)) && status == old(status)
      ensures added == |inputFiles| - |old(inputFiles)|
    {
      added := 0;
      for j := 0 to |files|
        invariant inputFiles == Appended(old(inputFiles), DirCandidates(root, files[..j])) && status == old(status)
        invariant |old(inputFiles)| <= |inputFiles| && added == |inputFiles| - |old(inputFiles)|
      {
        assert files[..j + 1][..j] == files[..j];
        ghost var prefix := DirCandidates(root, files[..j]);
        assert DirCandidates(root, files[..j + 1]) == prefix
            + (if IsAcceptedVideo(files[j]) then [JoinPath(root, files[j])] else []);
        if IsAcceptedVideo(files[j]) {
          var fullPath := JoinPath(root, files[j]);
          var isNew := Offer(fullPath);
          AppendedConcat(old(inputFiles), prefix, [fullPath]);
          if isNew {
            added := added + 1;
          }
        } else {
          assert prefix + [] == prefix;
        }
      }
      assert files[..|files|] == files;
    }

    /** Every directory of a walk in turn. */
    method OfferWalk(walk: seq<WalkDir>) returns (added: nat)
      modifies this
      ensures inputFiles == Appended(old(inputFiles), WalkCandidates(walk)) && status == old(status)
      ensures added == |inputFiles| - |old(inputFiles)|
    {
      added := 0;
      for i := 0 to |walk|
        invariant inputFiles == Appended(old(inputFiles), WalkCandidates(walk[..i])) && status == old(status)
        invariant |old(inputFiles)| <= |inputFiles| && added == |inputFiles| - |old(inputFiles)|
      {
        assert walk[..i + 1][..i] == walk[..i];
        ghost var before := inputFiles;
        var n := OfferDir(walk[i].root, walk[i].files);
        AppendedConcat(old(inputFiles), WalkCandidates(walk[..i]), DirCandidates(walk[i].root, walk[i].files));
        added := added + n;
      }
      assert walk[..|walk|] == walk;
    }

    /** `add_folder`: nothing happens when the dialog is cancelled; otherwise every video
        file the walk finds is offered, and the status line reports how many were new. */
    method AddFolder(folder: string, walk: seq<WalkDir>)
      modifies this
      ensures folder == "" ==> inputFiles == old(inputFiles) && status == old(status)
      ensures folder != "" ==>
        inputFiles == Appended(old(inputFiles), WalkCandidates(walk))
        && status == "Added " + NatToString(|inputFiles| - |old(inputFiles)|) + " files from folder"
    {
      if folder == "" {
        return;
      }
      var addedCount := OfferWalk(walk);
      status := "Added " + NatToString(addedCount) + " files from folder";
    }

    /** `on_drop`: a dropped video file is offered, a dropped directory is walked, and
        anything else is ignored. */
    method OnDrop(items: seq<Dropped>)
      modifies this
      ensures inputFiles == Appended(old(inputFiles), DropCandidates(items))
      ensures status == "Added " + NatToString(|inputFiles| - |old(inputFiles)|) + " files via drag and drop"
    {
      var addedCount: nat := 0;
      for i := 0 to |items|
        invariant inputFiles == Appended(old(inputFiles), DropCandidates(items[..i]))
        invariant |old(inputFiles)| <= |inputFiles| && addedCount == |inputFiles| - |old(inputFiles)|
      {
        ghost var before, current := DropCandidates(items[..i]), inputFiles;
        match items[i] {
          case DroppedFile(p) =>
            if IsAcceptedVideo(p) {
              var isNew := Offer(p);
              if isNew {
                addedCount := addedCount + 1;
              }
            }
          case DroppedDir(w) =>
            var n := OfferWalk(w);
            addedCount := addedCount + n;
          case DroppedOther =>
        }
        assert inputFiles == Appended(current, ItemCandidates(items[i]));
        DropStep(items, i);
        AppendedConcat(old(inputFiles), before, ItemCandidates(items[i]));
      }
      assert items[..|items|] == items;
      status := "Added " + NatToString(addedCount) + " files via drag and drop";
    }

    /** `remove_selected`: deletes the selected positions, highest first, so that each
        deletion leaves the positions still to be deleted in place. The list box reports
        its selection in increasing order. */
    method RemoveSelected(selected: seq<nat>)
      modifies this
      requires Increasing(selected) && forall t :: t in selected ==> t < |inputFiles|
      ensures inputFiles == Unselected(old(inputFiles), selected)
      ensures |inputFiles| == |old(inputFiles)| - |selected|
      ensures status == NatToString(|inputFiles|) + " files remaining"
    {
      ghost var original := inputFiles;
      var j := |selected|;
      KeepUntouched(original, selected[j..], 0, |original|);
      assert original[0..|original|] == original;
      while j > 0
        invariant 0 <= j <= |selected|
        invariant inputFiles == Unselected(original, selected[j..])
        invariant |inputFiles| == |original| - (|selected| - j)
      {
        var index := selected[j - 1];
        assert index in selected;
        IncreasingTail(selected, j);
        DeleteBelow(original, selected[j..], index);
        inputFiles := inputFiles[..index] + inputFiles[index + 1..];
        assert selected[j - 1..] == [index] + selected[j..];
        j := j - 1;
      }
      status := NatToString(|inputFiles|) + " files remaining";
    }

    /** `clear_all`. */
    method ClearAll()
      modifies this
      ensures inputFiles == [] && status == "All files cleared"
    {
      inputFiles := [];
      status := "All files cleared";
    }
  }

  // ---------------------------------------------------------------------------
  // Positions kept by remove_selected

  predicate Increasing(s: seq<nat>) { forall i :: 0 <= i < |s| - 1 ==> s[i] < s[i + 1] }

  lemma {:induction false} IncreasingAt(s: seq<nat>, i: nat, j: nat)
    requires Increasing(s) && i < j < |s|
    ensures s[i] < s[j]
    decreases j - i
  {
    if j > i + 1 {
      IncreasingAt(s, i, j - 1);
    }
  }

  lemma IncreasingTail(s: seq<nat>, j: nat)
    requires Increasing(s) && 0 < j <= |s|
    ensures forall t :: t in s[j..] ==> s[j - 1] < t
  {
    forall p | j <= p < |s|
      ensures s[j - 1] < s[p]
    {
      IncreasingAt(s, j - 1, p);
    }
    assert forall t :: t in s[j..] ==> exists p :: j <= p < |s| && s[p] == t by {
      forall t | t in s[j..]
        ensures exists p :: j <= p < |s| && s[p] == t
      {
        var q :| 0 <= q < |s[j..]| && s[j..][q] == t;
        assert s[j + q] == t;
      }
    }
  }

  /** The entries of `xs` from position `lo` on whose positions are not in `gone`. */
  function Keep(xs: seq<string>, gone: seq<nat>, lo: nat): seq<string>
    decreases |xs| - lo
  {
    if lo >= |xs| then [] else (if lo in gone then [] else [xs[lo]]) + Keep(xs, gone, lo + 1)
  }

  /** `xs` without the entries at the positions in `gone`, in their old order. */
  function Unselected(xs: seq<string>, gone: seq<nat>): seq<string>
  {
    Keep(xs, gone, 0)
  }

  /** Positions below `m` where nothing is deleted come through unchanged. */
  lemma {:induction false} KeepUntouched(xs: seq<string>, gone: seq<nat>, lo: nat, m: nat)
    requires lo <= m <= |xs| && forall t :: t in gone ==> !(lo <= t < m)
    ensures Keep(xs, gone, lo) == xs[lo..m] + Keep(xs, gone, m)
    decreases m - lo
  {
    var rest := Keep(xs, gone, m);
    if lo < m {
      KeepUntouched(xs, gone, lo + 1, m);
      assert lo !in gone;
      calc {
        Keep(xs, gone, lo);
        [xs[lo]] + Keep(xs, gone, lo + 1);
        [xs[lo]] + (xs[lo + 1..m] + rest);
        ([xs[lo]] + xs[lo + 1..m]) + rest;
        { assert [xs[lo]] + xs[lo + 1..m] == xs[lo..m]; }
        xs[lo..m] + rest;
      }
    } else {
      assert xs[lo..m] + rest == rest;
    }
  }

  /** Deleting a position below `m` does not change what is kept from `m` on. */
  lemma {:induction false} KeepIgnoresBelow(xs: seq<string>, gone: seq<nat>, k: nat, m: nat)
    requires k < m
    ensures Keep(xs, [k] + gone, m) == Keep(xs, gone, m)
    decreases |xs| - m
  {
    if m < |xs| {
      KeepIgnoresBelow(xs, gone, k, m + 1);
      assert m in [k] + gone <==> m in gone;
    }
  }

  /** One deletion of the loop in `remove_selected`: removing position `k`, below every
      position removed so far, from the current list removes it from the original. */
  lemma DeleteBelow(xs: seq<string>, gone: seq<nat>, k: nat)
    requires k < |xs| && forall t :: t in gone ==> k < t
    ensures var cur := Unselected(xs, gone);
      k < |cur| && cur[..k] + cur[k + 1..] == Unselected(xs, [k] + gone)
  {
    var cur := Unselected(xs, gone);
    KeepUntouched(xs, gone, 0, k + 1);
    assert cur[..k] == xs[..k];
    assert cur[k + 1..] == Keep(xs, gone, k + 1);
    KeepUntouched(xs, [k] + gone, 0, k);
    KeepIgnoresBelow(xs, gone, k, k + 1);
    assert k in [k] + gone;
    assert Keep(xs, [k] + gone, k) == Keep(xs, [k] + gone, k + 1);
  }

  /** A position not selected survives with its entry. */
  lemma UnselectedKeeps(xs: seq<string>, gone: seq<nat>, i: nat)
    requires i < |xs| && i !in gone
    ensures xs[i] in Unselected(xs, gone)
  {
    KeepAt(xs, gone, 0, i);
  }

  lemma {:induction false} KeepAt(xs: seq<string>, gone: seq<nat>, lo: nat, i: nat)
    requires lo <= i < |xs| && i !in gone
    ensures xs[i] in Keep(xs, gone, lo)
    decreases i - lo
  {
    if lo < i {
      KeepAt(xs, gone, lo + 1, i);
    }
  }

  // ---------------------------------------------------------------------------
  // The compression worker

  /** The overall progress shown while file `i` of `total` is at `percentage`. */
  function Overall(i: nat, total: nat, percentage: real): real
    requires total > 0
  {
    ((i as real + percentage / 100.0) / total as real) * 100.0
  }

  lemma DivMono(x: real, y: real, n: real)
    requires x <= y && n > 0.0
    ensures x / n <= y / n
  {
  }

  /** While file `i` runs, the overall progress stays within that file's share. */
  lemma OverallBounds(i: nat, total: nat, percentage: real)
    requires i < total && 0.0 <= percentage <= 100.0
    ensures (i as real / total as real) * 100.0 <= Overall(i, total, percentage) <= ((i + 1) as real / total as real) * 100.0
    ensures 0.0 <= Overall(i, total, percentage) <= 100.0
  {
    var n := total as real;
    var x := i as real + percentage / 100.0;
    assert i as real <= x <= (i + 1) as real;
    DivMono(i as real, x, n);
    DivMono(x, (i + 1) as real, n);
    DivMono(0.0, i as real, n);
    DivMono((i + 1) as real, n, n);
  }

  /** The update after a file succeeds is that file's full share, as the callback at
      100 % would give. */
  lemma CompletedShare(i: nat, total: nat)
    requires total > 0
    ensures Overall(i, total, 100.0) == ((i + 1) as real / total as real) * 100.0
  {
  }

  lemma OverallMonotone(i: nat, total: nat, p: real, q: real)
    requires total > 0 && p <= q
    ensures Overall(i, total, p) <= Overall(i, total, q)
  {
    DivMono(i as real + p / 100.0, i as real + q / 100.0, total as real);
  }

  /** How `compress_video` ended for one file: true or false, or an exception. */
  datatype Outcome = Succeeded | Failed | Raised

  /** The cancel flag is set from some check on (checks are numbered by the file about
      to start; check `|files|` is the one after the loop). */
  predicate CancelledAt(cancelFrom: Option<nat>, check: nat)
  {
    cancelFrom.Some? && cancelFrom.value <= check
  }

  /** The number of files the worker starts. */
  function StartedCount(total: nat, cancelFrom: Option<nat>): (n: nat)
    ensures n <= total
    ensures forall i :: 0 <= i < n ==> !CancelledAt(cancelFrom, i)
    ensures n < total ==> CancelledAt(cancelFrom, n)
  {
    if cancelFrom.Some? && cancelFrom.value < total then cancelFrom.value else total
  }

  /** How many of the first `n` files succeeded. */
  function CountSucceeded(outcomes: seq<Outcome>, n: nat): (c: nat)
    requires n <= |outcomes|
    ensures c <= n
  {
    if n == 0 then 0
    else CountSucceeded(outcomes, n - 1) + (if outcomes[n - 1] == Succeeded then 1 else 0)
  }

  /** The progress updates of file `i`: one per callback report, then the file's full
      share if it succeeded. */
  function FileUpdates(i: nat, total: nat, reports: seq<real>, outcome: Outcome): (u: seq<real>)
    requires total > 0
  {
    (if reports == [] then [] else FileUpdates(i, total, reports[..|reports| - 1], Raised) + [Overall(i, total, reports[|reports| - 1])])
      + (if outcome == Succeeded then [((i + 1) as real / total as real) * 100.0] else [])
  }

  function UpdatesUpTo(n: nat, total: nat, reports: seq<seq<real>>, outcomes: seq<Outcome>): seq<real>
    requires n <= total == |reports| == |outcomes|
  {
    if n == 0 then [] else UpdatesUpTo(n - 1, total, reports, outcomes) + FileUpdates(n - 1, total, reports[n - 1], outcomes[n - 1])
  }

  predicate Percentages(reports: seq<seq<real>>)
  {
    forall i, j :: 0 <= i < |reports| && 0 <= j < |reports[i]| ==> 0.0 <= reports[i][j] <= 100.0
  }

  lemma {:induction false} FileUpdatesInRange(i: nat, total: nat, reports: seq<real>, outcome: Outcome)
    requires i < total && forall j :: 0 <= j < |reports| ==> 0.0 <= reports[j] <= 100.0
    ensures forall u :: u in FileUpdates(i, total, reports, outcome) ==>
              (i as real / total as real) * 100.0 <= u <= ((i + 1) as real / total as real) * 100.0
    decreases |reports|
  {
    if reports != [] {
      FileUpdatesInRange(i, total, reports[..|reports| - 1], Raised);
      OverallBounds(i, total, reports[|reports| - 1]);
    }
    OverallBounds(i, total, 100.0);
  }

  lemma {:induction false} UpdatesInRange(n: nat, total: nat, reports: seq<seq<real>>, outcomes: seq<Outcome>)
    requires n <= total == |reports| == |outcomes| && Percentages(reports)
    ensures forall u :: u in UpdatesUpTo(n, total, reports, outcomes) ==> 0.0 <= u <= 100.0
  {
    if n > 0 {
      UpdatesInRange(n - 1, total, reports, outcomes);
      FileUpdatesInRange(n - 1, total, reports[n - 1], outcomes[n - 1]);
      OverallBounds(n - 1, total, 0.0);
      OverallBounds(n - 1, total, 100.0);
    }
  }

  /** `_compression_worker`. `presetName` is the chosen preset, `outputDir` the output
      directory, `reports[i]` the percentages the compressor reports for file i and
      `outcomes[i]` how it ends, and `cancelFrom` the first check that sees the cancel
      flag. Returns the outputs handed to the compressor, the successes, the progress
      updates and, if the worker finished without being cancelled, the success flag it
      passed to the progress window. */
  method CompressionWorker(files: seq<string>, presetName: string, outputDir: string,
                           reports: seq<seq<real>>, outcomes: seq<Outcome>, cancelFrom: Option<nat>)
    returns (outputs: seq<string>, successful: nat, updates: seq<real>, finished: Option<bool>)
    requires |reports| == |files| == |outcomes|
    ensures presetName !in Presets() ==> outputs == [] && successful == 0 && finished == Some(false)
    ensures presetName in Presets() ==> WorkerRun(files, outputDir, reports, outcomes, cancelFrom, outputs, successful, updates, finished)
  {
    if presetName !in Presets() {
      // the KeyError is caught by the worker's outer handler
      return [], 0, [], Some(false);
    }
    outputs, successful, updates, finished := ProcessFiles(files, outputDir, reports, outcomes, cancelFrom);
  }

  /** `outputs` are the names the first `n` files are compressed to. */
  predicate NamedOutputs(outputDir: string, files: seq<string>, n: nat, outputs: seq<string>)
    requires n <= |files|
  {
    |outputs| == n && forall k :: 0 <= k < n ==> outputs[k] == OutputFor(Directory(outputDir), files[k])
  }

  lemma NamedOutputsSnoc(outputDir: string, files: seq<string>, i: nat, outputs: seq<string>, o: string)
    requires i < |files| && NamedOutputs(outputDir, files, i, outputs)
    requires o == OutputFor(Directory(outputDir), files[i])
    ensures NamedOutputs(outputDir, files, i + 1, outputs + [o])
  {
    var next := outputs + [o];
    forall k | 0 <= k < i + 1
      ensures next[k] == OutputFor(Directory(outputDir), files[k])
    {
      if k < i {
        assert next[k] == outputs[k];
      }
    }
  }

  /** What a run over `files` produces: the outputs and successes of the files started
      before the cancel flag was seen, their progress updates, and the final 100 % and
      success flag unless the flag was seen. */
  predicate WorkerRun(files: seq<string>, outputDir: string, reports: seq<seq<real>>, outcomes: seq<Outcome>,
                      cancelFrom: Option<nat>, outputs: seq<string>, successful: nat, updates: seq<real>,
                      finished: Option<bool>)
    requires |reports| == |files| == |outcomes|
  {
    var started := StartedCount(|files|, cancelFrom);
    NamedOutputs(outputDir, files, started, outputs)
    && successful == CountSucceeded(outcomes, started)
    && successful <= started
    && updates == UpdatesUpTo(started, |files|, reports, outcomes) + (if CancelledAt(cancelFrom, started) then [] else [100.0])
    && finished == (if CancelledAt(cancelFrom, started) then None else Some(successful > 0))
  }

  /** The rest of `_compression_worker` once the settings are known. */
  method ProcessFiles(files: seq<string>, outputDir: string, reports: seq<seq<real>>, outcomes: seq<Outcome>,
                      cancelFrom: Option<nat>)
    returns (outputs: seq<string>, successful: nat, updates: seq<real>, finished: Option<bool>)
    requires |reports| == |files| == |outcomes|
    ensures WorkerRun(files, outputDir, reports, outcomes, cancelFrom, outputs, successful, updates, finished)
  {
    outputs, successful, updates := StartFiles(files, outputDir, reports, outcomes, cancelFrom);
    var started := StartedCount(|files|, cancelFrom);
    if !CancelledAt(cancelFrom, started) {
      updates := updates + [100.0];
      finished := Some(successful > 0);
    } else {
      finished := None;
    }
  }

  /** The loop of `_compression_worker`: each file is started unless the cancel flag is
      seen first, and the loop stops at the first file that sees it. */
  method StartFiles(files: seq<string>, outputDir: string, reports: seq<seq<real>>, outcomes: seq<Outcome>,
                    cancelFrom: Option<nat>)
    returns (outputs: seq<string>, successful: nat, updates: seq<real>)
    requires |reports| == |files| == |outcomes|
    ensures NamedOutputs(outputDir, files, StartedCount(|files|, cancelFrom), outputs)
    ensures successful == CountSucceeded(outcomes, StartedCount(|files|, cancelFrom))
    ensures updates == UpdatesUpTo(StartedCount(|files|, cancelFrom), |files|, reports, outcomes)
  {
    outputs, updates := [], [];
    successful := 0;
    var totalFiles := |files|;
    var i := 0;
    while i < totalFiles
      invariant 0 <= i <= StartedCount(totalFiles, cancelFrom)
      invariant NamedOutputs(outputDir, files, i, outputs)
      invariant successful == CountSucceeded(outcomes, i)
      invariant updates == UpdatesUpTo(i, totalFiles, reports, outcomes)
    {
      if CancelledAt(cancelFrom, i) {
        break;
      }
      var outputFile, fileUpdates, success := ProcessFile(i, totalFiles, files[i], outputDir, reports[i], outcomes[i]);
      NamedOutputsSnoc(outputDir, files, i, outputs, outputFile);
      outputs := outputs + [outputFile];
      updates := updates + fileUpdates;
      if success {
        successful := successful + 1;
      }
      i := i + 1;
    }
    assert i == StartedCount(totalFiles, cancelFrom);
  }

  /** One iteration: the output name, the updates the callback and the completion
      produce, and whether the file counts as a success. */
  method ProcessFile(i: nat, total: nat, inputFile: string, outputDir: string, reports: seq<real>, outcome: Outcome)
    returns (outputFile: string, updates: seq<real>, success: bool)
    requires i < total
    ensures outputFile == OutputFor(Directory(outputDir), inputFile)
    ensures updates == FileUpdates(i, total, reports, outcome)
    ensures success == (outcome == Succeeded)
  {
    var filename := Basename(inputFile);
    var name := SplitExtRoot(filename);
    outputFile := JoinPath(outputDir, name + "_compressed.mkv");
    updates := ReportProgress(i, total, reports);
    success := outcome == Succeeded;
    if success {
      updates := updates + [((i + 1) as real / total as real) * 100.0];
    }
  }

  /** The progress callback for file `i`, called with each report in turn. */
  method ReportProgress(i: nat, total: nat, reports: seq<real>) returns (u: seq<real>)
    requires total > 0
    ensures u == FileUpdates(i, total, reports, Raised)
  {
    u := [];
    for j := 0 to |reports|
      invariant u == FileUpdates(i, total, reports[..j], Raised)
    {
      assert reports[..j + 1][..j] == reports[..j];
      var overallProgress := ((i as real + reports[j] / 100.0) / total as real) * 100.0;
      u := u + [overallProgress];
    }
    assert reports[..|reports|] == reports;
  }

  /** Cancelling from the first check on starts nothing and finishes nothing. */
  lemma CancelFirst(files: seq<string>)
    ensures StartedCount(|files|, Some(0)) == 0 && CancelledAt(Some(0), StartedCount(|files|, Some(0)))
  {
  }

  /** Without cancelling every file is started and the worker reports success exactly
      when some file succeeded. */
  lemma NoCancelStartsAll(outcomes: seq<Outcome>)
    ensures StartedCount(|outcomes|, None) == |outcomes| && !CancelledAt(None, |outcomes|)
    ensures CountSucceeded(outcomes, |outcomes|) > 0 <==> Succeeded in outcomes
  {
    SucceededCount(outcomes, |outcomes|);
    assert outcomes[..|outcomes|] == outcomes;
  }

  lemma {:induction false} SucceededCount(outcomes: seq<Outcome>, n: nat)
    requires n <= |outcomes|
    ensures CountSucceeded(outcomes, n) > 0 <==> Succeeded in outcomes[..n]
  {
    if n > 0 {
      SucceededCount(outcomes, n - 1);
      assert outcomes[..n] == outcomes[..n - 1] + [outcomes[n - 1]];
    }
  }
}
