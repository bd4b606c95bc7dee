/** The in-memory side of utils/config.py: a settings dictionary addressed by dotted
    keys, the defaults merge on load, reset, the capped history and recent-directory
    lists, and the custom-preset map. Reading and writing the JSON file is left out; what
    the file held is a parameter of `Load`. */
module Config {

  import opened Wrappers
  import opened Text
  import opened Values
  import opened Paths

  type Store = map<string, Value>

  /** `get_default_settings()`, with the home directory as a parameter. */
  function Defaults(home: string): (d: Store)
    ensures "custom_presets" in d && d["custom_presets"] == VMap(map[])
    ensures "compression_history" in d && d["compression_history"] == VList([])
  {
    map[
      "ffmpeg_path" := VStr(""),
      "default_output_dir" := VStr(Render(Child(Child(Parse(home), "Videos"), "Compressed"))),
      "overwrite_files" := VBool(false),
      "show_notifications" := VBool(true),
      "auto_open_output" := VBool(false),
      "last_used_preset" := VStr("Balanced"),
      "window_geometry" := VStr("900x700"),
      "remember_window_position" := VBool(true),
      "log_level" := VStr("INFO"),
      "max_log_files" := VInt(10),
      "compression_history" := VList([]),
      "recent_input_directories" := VList([]),
      "recent_output_directories" := VList([]),
      "custom_presets" := VMap(map[]),
      "advanced_settings" := VMap(map[
        "thread_count" := VInt(0),
        "memory_limit" := VInt(0),
        "temp_directory" := VStr(""),
        "cleanup_temp_files" := VBool(true)])
    ]
  }

  /** What `load` finds: no file, a file whose JSON is an object, or a file that cannot
      be read or parsed. */
  datatype ConfigFile = NoFile | Loaded(entries: Store) | Unreadable

  /** The store `load` leaves: the defaults, shallowly updated by a loaded object. */
  function Merged(home: string, file: ConfigFile): (s: Store)
    ensures file.Loaded? ==> forall k :: k in file.entries ==> k in s && s[k] == file.entries[k]
    ensures forall k :: k in Defaults(home) && !(file.Loaded? && k in file.entries) ==> k in s && s[k] == Defaults(home)[k]
    ensures forall k :: k in s ==> k in Defaults(home) || (file.Loaded? && k in file.entries)
  {
    match file
    case Loaded(entries) => Defaults(home) + entries
    case _ => Defaults(home)
  }

  // ---------------------------------------------------------------------------
  // Dotted keys

  /** `value[k]` for each segment in turn: only a dictionary holding the segment can be
      indexed; anything else is the KeyError or TypeError that makes `get` fall back. */
  function Lookup(v: Value, keys: seq<string>): Option<Value>
    decreases |keys|
  {
    if keys == [] then Some(v)
    else match v
      case VMap(e) => if keys[0] in e then Lookup(e[keys[0]], keys[1..]) else None
      case _ => None
  }

  /** `get(key, default)`. */
  function GetValue(settings: Store, key: string, dflt: Value): Value
  {
    match Lookup(VMap(settings), Split(key, '.'))
    case Some(v) => v
    case None => dflt
  }

  /** One step of the walk in `set`: a missing segment becomes a new empty dictionary; a
      present one must be a dictionary, or the following step raises TypeError. */
  function Descend(m: Store, k: string): Option<Store>
  {
    if k !in m then Some(map[])
    else match m[k]
      case VMap(e) => Some(e)
      case _ => None
  }

  /** The store `set(key, value)` leaves, or None when it raises. */
  function Assign(m: Store, keys: seq<string>, v: Value): Option<Store>
    requires keys != []
    decreases |keys|
  {
    if |keys| == 1 then Some(m[keys[0] := v])
    else match Descend(m, keys[0])
      case None => None
      case Some(inner) =>
        match Assign(inner, keys[1..], v)
        case None => None
        case Some(updated) => Some(m[keys[0] := VMap(updated)])
  }

  predicate IsPrefix(a: seq<string>, b: seq<string>) { |a| <= |b| && b[..|a|] == a }

  lemma PrefixTail(a: seq<string>, b: seq<string>)
    requires a != [] && b != [] && a[0] == b[0] && IsPrefix(a[1..], b[1..])
    ensures IsPrefix(a, b)
  {
    assert b[..|a|] == [b[0]] + b[1..][..|a| - 1];
    assert a == [a[0]] + a[1..];
  }

  /** Some proper prefix of the path leads to a value that is not a dictionary. */
  predicate Blocked(m: Store, keys: seq<string>)
  {
    exists j :: 1 <= j < |keys| && Lookup(VMap(m), keys[..j]).Some? && !Lookup(VMap(m), keys[..j]).value.VMap?
  }

  /** Looking up a path in two halves. */
  lemma {:induction false} LookupAppend(v: Value, a: seq<string>, b: seq<string>)
    ensures Lookup(v, a + b) == match Lookup(v, a) case Some(w) => Lookup(w, b) case None => None
    decreases |a|
  {
    if a == [] {
      assert a + b == b;
    } else {
      assert (a + b)[0] == a[0];
      assert (a + b)[1..] == a[1..] + b;
      if v.VMap? && a[0] in v.entries {
        LookupAppend(v.entries[a[0]], a[1..], b);
      }
    }
  }

  /** After `set(key, v)` succeeds, `get(key)` returns v. */
  lemma {:induction false} GetAfterSet(m: Store, keys: seq<string>, v: Value)
    requires keys != [] && Assign(m, keys, v).Some?
    ensures Lookup(VMap(Assign(m, keys, v).value), keys) == Some(v)
    decreases |keys|
  {
    if |keys| > 1 {
      var inner := Descend(m, keys[0]).value;
      GetAfterSet(inner, keys[1..], v);
    }
  }

  /** `set` changes nothing off its path: a path that is neither a prefix nor an
      extension of the key reads the same before and after. */
  lemma {:induction false} SetChangesOnlyPath(m: Store, keys: seq<string>, v: Value, other: seq<string>)
    requires keys != [] && Assign(m, keys, v).Some?
    requires !IsPrefix(other, keys) && !IsPrefix(keys, other)
    ensures Lookup(VMap(Assign(m, keys, v).value), other) == Lookup(VMap(m), other)
    decreases |keys|
  {
    var m' := Assign(m, keys, v).value;
    assert other != [];
    if other[0] != keys[0] {
      assert other[0] !in m' <==> other[0] !in m;
    } else {
      assert |keys| > 1 && |other| > 1;
      var inner := Descend(m, keys[0]).value;
      assert !IsPrefix(other[1..], keys[1..]) by {
        if IsPrefix(other[1..], keys[1..]) {
          PrefixTail(other, keys);
        }
      }
      assert !IsPrefix(keys[1..], other[1..]) by {
        if IsPrefix(keys[1..], other[1..]) {
          PrefixTail(keys, other);
        }
      }
      SetChangesOnlyPath(inner, keys[1..], v, other[1..]);
      if keys[0] !in m {
        assert Lookup(VMap(inner), other[1..]) == None;
      }
    }
  }

  /** `set` raises exactly when a proper prefix of the key leads to something other than
      a dictionary. */
  lemma {:induction false} SetFailsIffBlocked(m: Store, keys: seq<string>, v: Value)
    requires keys != []
    ensures Assign(m, keys, v).None? <==> Blocked(m, keys)
    decreases |keys|
  {
    if |keys| > 1 {
      var k := keys[0];
      assert keys[..1] == [k];
      assert Lookup(VMap(m), keys[..1]) == (if k in m then Some(m[k]) else None) by {
        assert Lookup(VMap(m), [k]) == (if k in m then Lookup(m[k], []) else None);
      }
      match Descend(m, k)
      case None =>
        assert Blocked(m, keys) by {
          assert 1 <= 1 < |keys|;
        }
      case Some(inner) =>
        SetFailsIffBlocked(inner, keys[1..], v);
        BlockedStep(m, keys, inner);
    }
  }

  lemma BlockedStep(m: Store, keys: seq<string>, inner: Store)
    requires |keys| > 1 && Descend(m, keys[0]) == Some(inner)
    ensures Blocked(m, keys) <==> Blocked(inner, keys[1..])
  {
    var k, rest := keys[0], keys[1..];
    forall j | 1 <= j < |keys|
      ensures Lookup(VMap(m), keys[..j]) == (if k in m then Lookup(VMap(inner), rest[..j - 1]) else None)
    {
      assert keys[..j] == [k] + rest[..j - 1];
      assert ([k] + rest[..j - 1])[1..] == rest[..j - 1];
    }
    if Blocked(m, keys) {
      var j :| 1 <= j < |keys| && Lookup(VMap(m), keys[..j]).Some? && !Lookup(VMap(m), keys[..j]).value.VMap?;
      assert k in m;
      assert Lookup(VMap(inner), rest[..j - 1]) == Lookup(VMap(m), keys[..j]);
      assert 1 <= j - 1 < |rest|;
    }
    if Blocked(inner, rest) {
      var j :| 1 <= j < |rest| && Lookup(VMap(inner), rest[..j]).Some? && !Lookup(VMap(inner), rest[..j]).value.VMap?;
      assert k in m;
      assert Lookup(VMap(m), keys[..j + 1]) == Lookup(VMap(inner), rest[..j]);
      assert 1 <= j + 1 < |keys|;
    }
  }

  // ---------------------------------------------------------------------------
  // Lists kept in the store

  /** `if len(h) > n: h = h[-n:]`. */
  function LastN<T>(s: seq<T>, n: nat): (r: seq<T>)
    ensures |r| == if |s| > n then n else |s|
    ensures r == s[|s| - |r|..]
  {
    if |s| > n then s[|s| - n..] else s
  }

  /** The index of the first x in s. */
  function FirstIndex<T(==)>(s: seq<T>, x: T): (i: nat)
    requires x in s
    ensures i < |s| && s[i] == x && x !in s[..i]
  {
    if s[0] == x then 0
    else
      var i := FirstIndex(s[1..], x);
      assert s[..i + 1] == [s[0]] + s[1..][..i];
      i + 1
  }

  /** `list.remove(x)` when x is present, else the list unchanged. */
  function RemoveFirst<T(==)>(s: seq<T>, x: T): seq<T>
  {
    if s == [] then []
    else if s[0] == x then s[1..]
    else [s[0]] + RemoveFirst(s[1..], x)
  }

  /** Removal takes out exactly the first occurrence and keeps the rest in order. */
  lemma {:induction false} RemoveFirstAt<T>(s: seq<T>, x: T)
    ensures x !in s ==> RemoveFirst(s, x) == s
    ensures x in s ==> RemoveFirst(s, x) == s[..FirstIndex(s, x)] + s[FirstIndex(s, x) + 1..]
  {
    if s != [] && s[0] != x {
      RemoveFirstAt(s[1..], x);
      if x in s {
        var i := FirstIndex(s[1..], x);
        assert FirstIndex(s, x) == i + 1;
        assert s[..i + 1] == [s[0]] + s[1..][..i];
        assert s[i + 2..] == s[1..][i + 1..];
      } else {
        assert s == [s[0]] + s[1..];
      }
    }
  }

  /** The list `add_recent_directory` stores: x moved (or added) to the front, at most 10
      entries. */
  function MoveToFront<T(==)>(s: seq<T>, x: T): seq<T>
  {
    var r := [x] + RemoveFirst(s, x);
    if |r| > 10 then r[..10] else r
  }

  predicate Distinct<T(==)>(s: seq<T>) { forall i, j :: 0 <= i < j < |s| ==> s[i] != s[j] }

  /** x is first, at most ten entries remain, and after x come the other entries in
      their old order with the first earlier x taken out. */
  lemma MoveToFrontShape<T>(s: seq<T>, x: T)
    ensures var r := MoveToFront(s, x);
      |r| >= 1 && r[0] == x && |r| == (if |RemoveFirst(s, x)| + 1 > 10 then 10 else |RemoveFirst(s, x)| + 1)
      && IsSeqPrefix(r[1..], RemoveFirst(s, x))
  {
  }

  predicate IsSeqPrefix<T(==)>(a: seq<T>, b: seq<T>) { |a| <= |b| && b[..|a|] == a }

  lemma RemoveFirstDistinct<T>(s: seq<T>, x: T)
    requires Distinct(s)
    ensures Distinct(RemoveFirst(s, x)) && x !in RemoveFirst(s, x)
  {
    var rest := RemoveFirst(s, x);
    RemoveFirstAt(s, x);
    if x in s {
      var i := FirstIndex(s, x);
      assert rest == s[..i] + s[i + 1..];
      forall a | 0 <= a < |rest|
        ensures rest[a] == s[if a < i then a else a + 1]
      {
        if a < i {
          assert rest[a] == s[..i][a];
        } else {
          assert rest[a] == s[i + 1..][a - i];
        }
      }
      forall a, b | 0 <= a < b < |rest|
        ensures rest[a] != rest[b]
      {
        assert rest[a] == s[if a < i then a else a + 1];
        assert rest[b] == s[if b < i then b else b + 1];
      }
      forall a | 0 <= a < |rest|
        ensures rest[a] != x
      {
        assert rest[a] == s[if a < i then a else a + 1];
      }
    }
  }

  lemma ConsDistinct<T>(x: T, s: seq<T>)
    requires Distinct(s) && x !in s
    ensures Distinct([x] + s)
  {
    var r := [x] + s;
    forall a, b | 0 <= a < b < |r|
      ensures r[a] != r[b]
    {
      assert r[b] == s[b - 1];
      if a > 0 {
        assert r[a] == s[a - 1];
      }
    }
  }

  /** A list without repeats stays without repeats, and x occurs in it once. */
  lemma MoveToFrontDistinct<T>(s: seq<T>, x: T)
    requires Distinct(s)
    ensures Distinct(MoveToFront(s, x))
    ensures x !in MoveToFront(s, x)[1..]
  {
    var rest := RemoveFirst(s, x);
    RemoveFirstDistinct(s, x);
    ConsDistinct(x, rest);
    var r := [x] + rest;
    var t := MoveToFront(s, x);
    assert forall a :: 0 <= a < |t| ==> t[a] == r[a];
    assert forall a :: 0 <= a < |t| - 1 ==> t[1..][a] == rest[a];
  }

  /** One entry of the compression history. */
  function HistoryEntry(cwd: string, inputFile: string, outputFile: string, preset: string, success: bool): Value
  {
    VMap(map[
      "timestamp" := VStr(cwd),
      "input_file" := VStr(inputFile),
      "output_file" := VStr(outputFile),
      "preset" := VStr(preset),
      "success" := VBool(success)])
  }

  /** The history after `add_to_history`: the new entry last, the last 100 kept in order. */
  lemma HistoryShape(items: seq<Value>, entry: Value)
    ensures var h := LastN(items + [entry], 100);
      |h| == (if |items| + 1 > 100 then 100 else |items| + 1) && h[|h| - 1] == entry
      && h[..|h| - 1] == items[|items| + 1 - |h|..]
  {
    var h := LastN(items + [entry], 100);
    assert h == (items + [entry])[|items| + 1 - |h|..];
  }

  function RecentKey(directoryType: string): string
  {
    "recent_" + directoryType + "_directories"
  }

  /** Python's `name in v`: a key of a dictionary, an element of a list, a substring of
      a string; anything else raises TypeError (None). */
  function PyIn(name: string, v: Value): Option<bool>
  {
    match v
    case VMap(e) => Some(name in e)
    case VList(items) => Some(VStr(name) in items)
    case VStr(s) => Some(Contains(s, name))
    case _ => None
  }

  lemma NoDotKeys()
    ensures Split("compression_history", '.') == ["compression_history"]
    ensures Split("custom_presets", '.') == ["custom_presets"]
  {
    var a, b := "compression_history", "custom_presets";
    assert forall k :: 0 <= k < |a| ==> a[k] != '.';
    assert forall k :: 0 <= k < |b| ==> b[k] != '.';
  }

  // ---------------------------------------------------------------------------
  // The manager

  class ConfigManager {
    const home: string
    var settings: Store

    /** `ConfigManager(config_file)`: the store starts out as `load` leaves it. */
    constructor(home: string, file: ConfigFile)
      ensures this.home == home && settings == Merged(home, file)
    {
      this.home := home;
      settings := Merged(home, file);
    }

    /** `load`. */
    method Load(file: ConfigFile)
      modifies this
      ensures settings == Merged(home, file)
    {
      match file
      case Loaded(entries) =>
        settings := Defaults(home);
        settings := settings + entries;
      case _ =>
        settings := Defaults(home);
    }

    /** `reset_to_defaults`. */
    method ResetToDefaults()
      modifies this
      ensures settings == Defaults(home)
    {
      settings := Defaults(home);
    }

    /** `get(key, default)`: walks the segments and falls back on the default. */
    method Get(key: string, dflt: Value) returns (r: Value)
      ensures r == GetValue(settings, key, dflt)
    {
      var keys := Split(key, '.');
      var value := VMap(settings);
      var i := 0;
      while i < |keys|
        invariant 0 <= i <= |keys|
        invariant Lookup(VMap(settings), keys) == Lookup(value, keys[i..])
      {
        assert keys[i..][1..] == keys[i + 1..];
        match value {
          case VMap(e) =>
            if keys[i] !in e {
              return dflt;
            }
            value := e[keys[i]];
          case _ =>
            return dflt;
        }
        i := i + 1;
      }
      assert keys[i..] == [];
      r := value;
    }

    /** `set(key, value)`: walks down to the parent of the last segment, creating missing
      dictionaries on the way, and stores the value there. Returns false where Python
      raises TypeError, and then nothing has changed. */
    method Set(key: string, value: Value) returns (ok: bool)
      modifies this
      ensures var r := Assign(old(settings), Split(key, '.'), value);
        ok == r.Some? && settings == (if r.Some? then r.value else old(settings))
    {
      var keys := Split(key, '.');
      var frames: seq<Store> := [settings];
      var i := 0;
      while i < |keys| - 1
        invariant 0 <= i <= |keys| - 1 && |frames| == i + 1 && frames[0] == settings
        invariant forall j :: 0 <= j < i ==> Descend(frames[j], keys[j]) == Some(frames[j + 1])
      {
        var target := frames[i];
        var k := keys[i];
        if k !in target {
          frames := frames + [map[]];
        } else if target[k].VMap? {
          frames := frames + [target[k].entries];
        } else {
          FailureRises(frames, keys, value, i, 0);
          assert keys[0..] == keys;
          return false;
        }
        i := i + 1;
      }
      var acc := frames[i][keys[i] := value];
      assert keys[i..] == [keys[i]];
      while i > 0
        invariant 0 <= i <= |keys| - 1 && |frames| == |keys| && frames[0] == old(settings)
        invariant forall j :: 0 <= j < |keys| - 1 ==> Descend(frames[j], keys[j]) == Some(frames[j + 1])
        invariant Assign(frames[i], keys[i..], value) == Some(acc)
      {
        assert keys[i - 1..][1..] == keys[i..];
        i := i - 1;
        acc := frames[i][keys[i] := VMap(acc)];
      }
      assert keys[0..] == keys;
      settings := acc;
      ok := true;
    }

    /** `add_to_history`: the entry is appended to the stored list and the last 100 are
      kept. A stored value that is not a list has no `append`: false, nothing changed. */
    method AddToHistory(cwd: string, inputFile: string, outputFile: string, preset: string, success: bool)
      returns (ok: bool)
      modifies this
      ensures var h := GetValue(old(settings), "compression_history", VList([]));
        var entry := HistoryEntry(cwd, inputFile, outputFile, preset, success);
        ok == h.VList?
        && settings == if h.VList? then old(settings)["compression_history" := VList(LastN(h.items + [entry], 100))]
                       else old(settings)
    {
      var history := Get("compression_history", VList([]));
      if !history.VList? {
        return false;
      }
      var entry := HistoryEntry(cwd, inputFile, outputFile, preset, success);
      var items := history.items + [entry];
      if |items| > 100 {
        items := items[|items| - 100..];
      }
      NoDotKeys();
      ok := Set("compression_history", VList(items));
    }

    /** `add_recent_directory`: the directory moves to the front of the stored list, which
      keeps at most 10 entries. A stored value that is not a list: false, nothing
      changed. */
    method AddRecentDirectory(directory: string, directoryType: string) returns (ok: bool)
      modifies this
      ensures var keys := Split(RecentKey(directoryType), '.');
        var cur := GetValue(old(settings), RecentKey(directoryType), VList([]));
        var r := if cur.VList? then Assign(old(settings), keys, VList(MoveToFront(cur.items, VStr(directory)))) else None;
        ok == r.Some? && settings == (if r.Some? then r.value else old(settings))
    {
      var key := RecentKey(directoryType);
      var recent := Get(key, VList([]));
      if !recent.VList? {
        return false;
      }
      var items := recent.items;
      RemoveFirstAt(items, VStr(directory));
      if VStr(directory) in items {
        items := RemoveFirst(items, VStr(directory));
      }
      items := [VStr(directory)] + items;
      if |items| > 10 {
        items := items[..10];
      }
      ok := Set(key, VList(items));
    }

    /** `save_custom_preset`: stores the preset under its name in the preset map. A stored
      value that is not a dictionary: false, nothing changed. */
    method SaveCustomPreset(name: string, preset: Value) returns (ok: bool)
      modifies this
      ensures var cur := GetValue(old(settings), "custom_presets", VMap(map[]));
        ok == cur.VMap?
        && settings == if cur.VMap? then old(settings)["custom_presets" := VMap(cur.entries[name := preset])]
                       else old(settings)
    {
      var presets := Get("custom_presets", VMap(map[]));
      if !presets.VMap? {
        return false;
      }
      NoDotKeys();
      ok := Set("custom_presets", VMap(presets.entries[name := preset]));
    }

    /** `delete_custom_preset`: removes the name when present, otherwise changes nothing.
      False where Python raises: `in` on a scalar, or `del` on a list or string that
      holds the name. */
    method DeleteCustomPreset(name: string) returns (ok: bool)
      modifies this
      ensures var cur := GetValue(old(settings), "custom_presets", VMap(map[]));
        ok == (PyIn(name, cur) == Some(false) || (cur.VMap? && name in cur.entries))
        && settings == if cur.VMap? && name in cur.entries
                       then old(settings)["custom_presets" := VMap(cur.entries - {name})]
                       else old(settings)
    {
      var presets := Get("custom_presets", VMap(map[]));
      var present := PyIn(name, presets);
      if present.None? {
        return false;
      }
      if present.value {
        if !presets.VMap? {
          return false;
        }
        NoDotKeys();
        ok := Set("custom_presets", VMap(presets.entries - {name}));
      } else {
        ok := true;
      }
    }
  }

  /** After `add_recent_directory` succeeds, `get_recent_directories` starts with the
      directory. */
  lemma RecentFront(m: Store, directoryType: string, directory: string, items: seq<Value>)
    requires Assign(m, Split(RecentKey(directoryType), '.'), VList(MoveToFront(items, VStr(directory)))).Some?
    ensures var m' := Assign(m, Split(RecentKey(directoryType), '.'), VList(MoveToFront(items, VStr(directory)))).value;
      var got := GetValue(m', RecentKey(directoryType), VList([]));
      got == VList(MoveToFront(items, VStr(directory))) && got.items[0] == VStr(directory)
  {
    GetAfterSet(m, Split(RecentKey(directoryType), '.'), VList(MoveToFront(items, VStr(directory))));
    MoveToFrontShape(items, VStr(directory));
  }

  /** A failed step anywhere on the walk makes the whole `set` fail. */
  lemma {:induction false} FailureRises(frames: seq<Store>, keys: seq<string>, v: Value, i: nat, j: nat)
    requires j <= i < |keys| - 1 && |frames| == i + 1
    requires forall t :: 0 <= t < i ==> Descend(frames[t], keys[t]) == Some(frames[t + 1])
    requires Descend(frames[i], keys[i]).None?
    ensures Assign(frames[j], keys[j..], v).None?
    decreases i - j
  {
    assert keys[j..][1..] == keys[j + 1..];
    if j < i {
      FailureRises(frames, keys, v, i, j + 1);
    }
  }

  /** After a successful `save_custom_preset`, the preset map holds the preset under its
      name; after `delete_custom_preset` of a present name, the name is gone. */
  lemma PresetSaveDelete(m: Store, name: string, preset: Value)
    requires "custom_presets" in m && m["custom_presets"].VMap?
    ensures var m' := m["custom_presets" := VMap(m["custom_presets"].entries[name := preset])];
      var p := GetValue(m', "custom_presets", VMap(map[]));
      p.VMap? && name in p.entries && p.entries[name] == preset
    ensures var m' := m["custom_presets" := VMap(m["custom_presets"].entries - {name})];
      var p := GetValue(m', "custom_presets", VMap(map[]));
      p.VMap? && name !in p.entries
  {
    NoDotKeys();
    var k := "custom_presets";
    var saved := m[k := VMap(m[k].entries[name := preset])];
    var deleted := m[k := VMap(m[k].entries - {name})];
    assert Lookup(VMap(saved), [k]) == Lookup(saved[k], []);
    assert Lookup(VMap(deleted), [k]) == Lookup(deleted[k], []);
  }
}
