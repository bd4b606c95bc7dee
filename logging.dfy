/** The message builders of utils/logger.py: the path sanitiser of
    `FileOperationLogger` and the texts of its two log calls, and the start and
    completion messages of `ProgressLogger`. The home directory is a parameter and the
    elapsed time arrives already rendered. */
module Logging {

  import opened Wrappers
  import opened Text
  import opened Paths

  /** The `logging` level a record is written at. */
  datatype Level = Info | Error

  /** `path.relative_to(home)`: defined exactly when `home` is a leading part of `path`
      (same anchor, its components a prefix), and then the remaining components. */
  function RelativeTo(p: PurePath, home: PurePath): Option<PurePath>
  {
    if p.absolute == home.absolute && |home.parts| <= |p.parts| && p.parts[..|home.parts|] == home.parts
    then Some(PurePath(false, p.parts[|home.parts|..]))
    else None
  }

  /** The relative part is what follows `home`, and only paths under `home` have one. */
  lemma RelativeToInverse(p: PurePath, home: PurePath)
    ensures RelativeTo(p, home).Some? <==> exists rest :: p == PurePath(home.absolute, home.parts + rest)
    ensures RelativeTo(p, home).Some? ==>
              p == PurePath(home.absolute, home.parts + RelativeTo(p, home).value.parts)
                && !RelativeTo(p, home).value.absolute
  {
    if RelativeTo(p, home).Some? {
      var rest := p.parts[|home.parts|..];
      assert p.parts == home.parts + rest;
    }
  }

  /** A path built from `home` and further components is relative to it, with those
      components. */
  lemma RelativeToChild(home: PurePath, rest: seq<string>)
    ensures RelativeTo(PurePath(home.absolute, home.parts + rest), home) == Some(PurePath(false, rest))
  {
    var parts := home.parts + rest;
    assert parts[..|home.parts|] == home.parts;
    assert parts[|home.parts|..] == rest;
  }

  /** `FileOperationLogger._sanitize_path(path)`: "~/" and the part below the home
      directory; otherwise ".../" and the final component when `str(Path(path))` is
      longer than 100 characters; otherwise `str(Path(path))`. */
  function SanitizePath(path: string, home: PurePath): (r: string)
    ensures r != ""
  {
    var p := Parse(path);
    match RelativeTo(p, home)
    case Some(rel) => "~/" + Render(rel)
    case None => if |Render(p)| > 100 then ".../" + Name(p) else Render(p)
  }

  /** A path below the home directory is shown from "~" on; one outside it is shown as
      it is unless it is long, when only its final component is kept. */
  lemma SanitizeCases(path: string, home: PurePath, rest: seq<string>)
    ensures Parse(path) == PurePath(home.absolute, home.parts + rest) ==>
              SanitizePath(path, home) == "~/" + Render(PurePath(false, rest))
    ensures RelativeTo(Parse(path), home).None? && |Render(Parse(path))| <= 100 ==>
              SanitizePath(path, home) == Render(Parse(path))
    ensures RelativeTo(Parse(path), home).None? && |Render(Parse(path))| > 100 ==>
              SanitizePath(path, home) == ".../" + Name(Parse(path))
  {
    if Parse(path) == PurePath(home.absolute, home.parts + rest) {
      RelativeToChild(home, rest);
    }
  }

  /** The rendered text after a prefix ending in '/' (or empty) names the last component. */
  lemma NameAfterJoin(pre: string, parts: seq<string>)
    requires parts != [] && ValidPart(parts[|parts| - 1])
    requires pre == "" || pre[|pre| - 1] == '/'
    ensures Name(Parse(pre + Join(parts, "/"))) == parts[|parts| - 1]
  {
    var last := parts[|parts| - 1];
    if |parts| >= 2 {
      var init := parts[..|parts| - 1];
      var dir := pre + Join(init, "/");
      JoinLast(pre, parts, init, last);
      NameOfJoined(dir, last);
    } else {
      assert Join(parts, "/") == last;
      if pre == "" {
        assert pre + last == last;
        NameOfBare(last);
      } else {
        var dir := pre[..|pre| - 1];
        SlashLast(pre, dir, last);
        NameOfJoined(dir, last);
      }
    }
  }

  lemma JoinLast(pre: string, parts: seq<string>, init: seq<string>, last: string)
    requires |parts| >= 2 && init == parts[..|parts| - 1] && last == parts[|parts| - 1]
    ensures pre + Join(parts, "/") == (pre + Join(init, "/")) + "/" + last
  {
    assert init + [last] == parts;
    JoinAppend(init, last, "/");
  }

  lemma SlashLast(pre: string, dir: string, last: string)
    requires pre != "" && pre[|pre| - 1] == '/' && dir == pre[..|pre| - 1]
    ensures pre + last == dir + "/" + last
  {
    assert pre == dir + "/";
  }

  /** Sanitising keeps the file name: whichever form is logged, its final component is
      the final component of the path, for any path strictly below the home directory
      and any other path that has a final component. */
  lemma SanitizeKeepsName(path: string, home: PurePath)
    requires Parse(path).parts != []
    requires RelativeTo(Parse(path), home).Some? ==> RelativeTo(Parse(path), home).value.parts != []
    ensures Name(Parse(SanitizePath(path, home))) == Name(Parse(path))
  {
    var p := Parse(path);
    match RelativeTo(p, home)
    case Some(rel) =>
      HomeFormKeepsName(p, home, rel);
    case None =>
      if |Render(p)| > 100 {
        ShortFormKeepsName(p);
      } else {
        RenderKeepsName(p);
      }
  }

  lemma HomeFormKeepsName(p: PurePath, home: PurePath, rel: PurePath)
    requires ValidPath(p) && RelativeTo(p, home) == Some(rel) && rel.parts != []
    ensures Name(Parse("~/" + Render(rel))) == Name(p)
  {
    var k := |home.parts|;
    assert rel.parts == p.parts[k..];
    assert rel.parts[|rel.parts| - 1] == p.parts[|p.parts| - 1];
    assert Render(rel) == Join(rel.parts, "/");
    NameAfterJoin("~/", rel.parts);
  }

  lemma ShortFormKeepsName(p: PurePath)
    requires ValidPath(p) && p.parts != []
    ensures Name(Parse(".../" + Name(p))) == Name(p)
  {
    var last := p.parts[|p.parts| - 1];
    assert ValidPart(last);
    assert ".../" + last == "..." + "/" + last;
    NameOfJoined("...", last);
  }

  lemma RenderKeepsName(p: PurePath)
    requires ValidPath(p) && p.parts != []
    ensures Name(Parse(Render(p))) == Name(p)
  {
    var lead := if p.absolute then "/" else "";
    assert ValidPart(p.parts[|p.parts| - 1]);
    assert Render(p) == lead + Join(p.parts, "/");
    NameAfterJoin(lead, p.parts);
  }

  /** Only a long path outside the home directory is shortened, and then to the marker
      and its final component. */
  lemma SanitizeBound(path: string, home: PurePath)
    requires RelativeTo(Parse(path), home).None?
    ensures |SanitizePath(path, home)| <= 100 || SanitizePath(path, home) == ".../" + Name(Parse(path))
    ensures SanitizePath(path, home) != Render(Parse(path)) ==> |Render(Parse(path))| > 100
  {
  }

  /** `msg += f"{sep}{message}"` guarded by `if message:`. */
  function WithSuffix(base: string, sep: string, message: string): (r: string)
  {
    if message == "" then base else base + sep + message
  }

  /** The base always leads, and the separator and the message follow exactly when the
      message is not empty, so both can be read back. */
  lemma WithSuffixParts(base: string, sep: string, message: string)
    requires sep != ""
    ensures |WithSuffix(base, sep, message)| >= |base| && WithSuffix(base, sep, message)[..|base|] == base
    ensures message == "" <==> WithSuffix(base, sep, message) == base
    ensures message != "" ==>
              |WithSuffix(base, sep, message)| == |base| + |sep| + |message|
                && WithSuffix(base, sep, message)[|base|..|base| + |sep|] == sep
                && WithSuffix(base, sep, message)[|base| + |sep|..] == message
  {
    var r := WithSuffix(base, sep, message);
    if message != "" {
      assert r == base + sep + message;
      assert |r| > |base|;
      assert r[..|base|] == base;
      assert r[|base|..|base| + |sep|] == sep;
      assert r[|base| + |sep|..] == message;
    } else {
      assert r[..|base|] == base;
    }
  }

  /** `FileOperationLogger.log_file_operation(operation, input_path, output_path)`: an
      info record "op: input", followed by " -> output" when an output is given. An
      absent output (`None`) is written as "". */
  function FileOperationRecord(operation: string, inputPath: string, outputPath: string, home: PurePath): (Level, string)
  {
    var head := operation + ": " + SanitizePath(inputPath, home);
    (Info, WithSuffix(head, " -> ", if outputPath != "" then SanitizePath(outputPath, home) else ""))
  }

  /** The record is at info level and reads "op: input" with the arrow and the output
      after it exactly when there is an output. */
  lemma FileOperationParts(operation: string, inputPath: string, outputPath: string, home: PurePath)
    ensures FileOperationRecord(operation, inputPath, outputPath, home).0 == Info
    ensures outputPath == "" <==>
              FileOperationRecord(operation, inputPath, outputPath, home).1
              == operation + ": " + SanitizePath(inputPath, home)
    ensures outputPath != "" ==>
              FileOperationRecord(operation, inputPath, outputPath, home).1
              == operation + ": " + SanitizePath(inputPath, home) + " -> " + SanitizePath(outputPath, home)
  {
    var head := operation + ": " + SanitizePath(inputPath, home);
    var tail := if outputPath != "" then SanitizePath(outputPath, home) else "";
    WithSuffixParts(head, " -> ", tail);
  }

  /** `FileOperationLogger.log_file_error(operation, path, error)`: an error record
      "op failed for path: error". */
  function FileErrorRecord(operation: string, path: string, error: string, home: PurePath): (Level, string)
  {
    (Error, operation + " failed for " + SanitizePath(path, home) + ": " + error)
  }

  /** The error record names the operation first and the error text last. */
  lemma FileErrorParts(operation: string, path: string, error: string, home: PurePath)
    ensures FileErrorRecord(operation, path, error, home).0 == Error
    ensures var r := FileErrorRecord(operation, path, error, home).1;
            |r| >= |operation| + 12 + |error| + 2
              && r[..|operation| + 12] == operation + " failed for "
              && r[|r| - |error| - 2..] == ": " + error
  {
    var s := SanitizePath(path, home);
    var r := FileErrorRecord(operation, path, error, home).1;
    assert r == (operation + " failed for ") + s + (": " + error);
    assert r[..|operation| + 12] == operation + " failed for ";
    assert r[|r| - |error| - 2..] == ": " + error;
  }

  /** `ProgressLogger.log_start(message)`: an info record "Started op", followed by
      ": message" when a message is given. */
  function StartRecord(operationName: string, message: string): (Level, string)
  {
    (Info, WithSuffix("Started " + operationName, ": ", message))
  }

  /** The start record reads "Started op" and carries the message exactly when one is
      given. */
  lemma StartParts(operationName: string, message: string)
    ensures StartRecord(operationName, message).0 == Info
    ensures StartRecord(operationName, message).1[..8 + |operationName|] == "Started " + operationName
    ensures message == "" <==> StartRecord(operationName, message).1 == "Started " + operationName
    ensures message != "" ==> StartRecord(operationName, message).1[10 + |operationName|..] == message
  {
    WithSuffixParts("Started " + operationName, ": ", message);
  }

  /** `ProgressLogger.log_complete(success, message)`: "op completed in Ns" at info
      level, or "op failed in Ns" at error level, followed by ": message" when a message
      is given. `elapsed` is the seconds already rendered with one decimal. */
  function CompleteRecord(operationName: string, success: bool, elapsed: string, message: string): (Level, string)
  {
    var status := if success then "completed" else "failed";
    var msg := WithSuffix(operationName + " " + status + " in " + elapsed + "s", ": ", message);
    (if success then Info else Error, msg)
  }

  /** Success is logged at info level with "completed", failure at error level with
      "failed", and the message is appended exactly when one is given. */
  lemma CompleteParts(operationName: string, success: bool, elapsed: string, message: string)
    ensures CompleteRecord(operationName, success, elapsed, message).0 == Info <==> success
    ensures CompleteRecord(operationName, success, elapsed, message).0 == Error <==> !success
    ensures var head := operationName + " " + (if success then "completed" else "failed") + " in " + elapsed + "s";
            var r := CompleteRecord(operationName, success, elapsed, message).1;
            r[..|head|] == head && (message == "" <==> r == head)
              && (message != "" ==> r[|head| + 2..] == message)
  {
    var head := operationName + " " + (if success then "completed" else "failed") + " in " + elapsed + "s";
    WithSuffixParts(head, ": ", message);
  }
}
