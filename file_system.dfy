/**
 * The playground's virtual file system: a table from path to contents, and
 * a registry of watchers keyed by the regular expression built from each
 * watched path. Writing and deleting a file call every watcher whose
 * pattern matches the path; the calls are recorded in an event log.
 *
 * Regular expressions and debounced callbacks are objects, compared by
 * identity when used as map keys and set members. Both are modelled as
 * values carrying a serial number drawn from a counter, so each one built
 * is distinct from every earlier one.
 */
module PlaygroundFileSystem {
  import opened Wrappers

  /** The identity of a callback handed to `watchFile`. */
  type CallbackId = nat

  /** The regular expression object built for a watched path. */
  datatype PathRegExp = PathRegExp(serial: nat, path: string)

  /** What is stored in a watcher set: a debounced wrapper around a callback, or the callback itself. */
  datatype Listener = Debounced(serial: nat, callback: CallbackId) | Direct(callback: CallbackId)

  /** One entry of the watcher registry: a pattern and its set of listeners, in insertion order. */
  datatype WatchEntry = WatchEntry(key: PathRegExp, listeners: seq<Listener>)

  /** The handle `watchFile` returns; closing it removes `listener` from `key`'s set. */
  datatype Watcher = Watcher(key: PathRegExp, listener: Listener)

  /**
   * One call of a listener: the path and the event kind. The kinds are the
   * numbers the file system passes: 0 for a new file, 1 for a deletion, 2
   * for an overwrite.
   */
  datatype Event = Event(listener: Listener, path: string, kind: nat)

  /** The polling interval used when `watchFile` is given none. */
  const DefaultPollingInterval: nat := 500

  predicate Distinct<T(==)>(s: seq<T>) {
    forall i, j :: 0 <= i < j < |s| ==> s[i] != s[j]
  }

  // ---------------------------------------------------------------------------
  // Sequences standing for JavaScript maps and sets, which iterate in insertion order

  /** `s` with `x` removed, the others in their order. */
  function Without<T(==, !new)>(s: seq<T>, x: T): (r: seq<T>)
    ensures forall y :: y in r <==> y in s && y != x
    ensures Distinct(s) ==> Distinct(r)
    ensures x !in s ==> r == s
  {
    if s == [] then []
    else
      var rest := Without(s[1..], x);
      assert Distinct(s) ==> Distinct(s[1..]) && s[0] !in s[1..];
      if s[0] == x then rest else [s[0]] + rest
  }

  /** Adding to a set: a member already present stays where it is. */
  function SetAdd<T(==, !new)>(s: seq<T>, x: T): (r: seq<T>)
    ensures forall y :: y in r <==> y in s || y == x
    ensures Distinct(s) ==> Distinct(r)
    ensures x in s ==> r == s
  {
    if x in s then s else s + [x]
  }

  /** The keys that satisfy `keep`, in their order. */
  function Filter(keys: seq<string>, keep: string -> bool): (r: seq<string>)
    ensures forall f :: f in r <==> f in keys && keep(f)
    ensures Distinct(keys) ==> Distinct(r)
    ensures |r| <= |keys|
  {
    if keys == [] then []
    else
      var rest := Filter(keys[1..], keep);
      assert Distinct(keys) ==> Distinct(keys[1..]) && keys[0] !in keys[1..];
      if keep(keys[0]) then [keys[0]] + rest else rest
  }

  /** The position of `key` in the registry, or -1. */
  function FindEntry(registry: seq<WatchEntry>, key: PathRegExp): (i: int)
    ensures -1 <= i < |registry|
    ensures i >= 0 ==> registry[i].key == key
    ensures i == -1 <==> forall j :: 0 <= j < |registry| ==> registry[j].key != key
  {
    if registry == [] then -1
    else if registry[|registry| - 1].key == key then |registry| - 1
    else FindEntry(registry[..|registry| - 1], key)
  }

  predicate DistinctKeys(registry: seq<WatchEntry>) {
    forall i, j :: 0 <= i < j < |registry| ==> registry[i].key != registry[j].key
  }

  // ---------------------------------------------------------------------------
  // Event firing: the reference definition

  /** The calls made for one matching entry: each of its listeners, in order. */
  function EventsFor(listeners: seq<Listener>, path: string, kind: nat): (r: seq<Event>)
    ensures |r| == |listeners|
    ensures forall k :: 0 <= k < |r| ==> r[k] == Event(listeners[k], path, kind)
  {
    seq(|listeners|, k requires 0 <= k < |listeners| => Event(listeners[k], path, kind))
  }

  /** The calls made for the first `n` registry entries. */
  function FiredUpTo(registry: seq<WatchEntry>, matches: (string, string) -> bool, path: string, kind: nat,
                     n: nat): seq<Event>
    requires n <= |registry|
  {
    if n == 0 then []
    else
      FiredUpTo(registry, matches, path, kind, n - 1) +
      (if matches(registry[n - 1].key.path, path) then EventsFor(registry[n - 1].listeners, path, kind) else [])
  }

  /** The calls `triggerCallbacks` makes. */
  function Fired(registry: seq<WatchEntry>, matches: (string, string) -> bool, path: string, kind: nat): seq<Event> {
    FiredUpTo(registry, matches, path, kind, |registry|)
  }

  /**
   * An event fires exactly for a listener in the set of an entry whose
   * pattern matches the path, with that path and kind.
   */
  lemma {:induction false} FiredUpToCharacterized(registry: seq<WatchEntry>, matches: (string, string) -> bool,
                                                  path: string, kind: nat, n: nat, e: Event)
    requires n <= |registry|
    ensures e in FiredUpTo(registry, matches, path, kind, n) <==>
            e.path == path && e.kind == kind &&
            exists i :: 0 <= i < n && matches(registry[i].key.path, path) && e.listener in registry[i].listeners
  {
    if n > 0 {
      FiredUpToCharacterized(registry, matches, path, kind, n - 1, e);
      var last := registry[n - 1];
      if matches(last.key.path, path) {
        var evs := EventsFor(last.listeners, path, kind);
        if e.listener in last.listeners && e.path == path && e.kind == kind {
          var k :| 0 <= k < |last.listeners| && last.listeners[k] == e.listener;
          assert evs[k] == e;
        }
      }
    }
  }

  lemma FiredCharacterized(registry: seq<WatchEntry>, matches: (string, string) -> bool,
                           path: string, kind: nat, e: Event)
    ensures e in Fired(registry, matches, path, kind) <==>
            e.path == path && e.kind == kind &&
            exists i :: 0 <= i < |registry| && matches(registry[i].key.path, path) && e.listener in registry[i].listeners
  {
    FiredUpToCharacterized(registry, matches, path, kind, |registry|, e);
  }

  // ---------------------------------------------------------------------------
  // The initial table and the file-name filters

  /** The files the system starts with: the two configuration files, and the input file when there is code. */
  function InitialFiles(eslintrc: string, tsconfig: string, code: string, fileType: string): (files: map<string, string>)
    ensures "/.eslintrc" in files && files["/.eslintrc"] == eslintrc
    ensures "/tsconfig.json" in files && files["/tsconfig.json"] == tsconfig
    ensures "/input" + fileType in files <==> code != ""
    ensures code != "" ==> files["/input" + fileType] == code
    ensures forall f :: f in files ==> f == "/.eslintrc" || f == "/tsconfig.json" || f == "/input" + fileType
  {
    assert ("/input" + fileType)[1] == 'i';
    var config := map["/.eslintrc" := eslintrc, "/tsconfig.json" := tsconfig];
    if code != "" then config["/input" + fileType := code] else config
  }

  /** The order in which the initial files were inserted. */
  function InitialOrder(code: string, fileType: string): (order: seq<string>)
    ensures Distinct(order)
    ensures forall f :: f in order <==> f in InitialFiles("", "", code, fileType)
  {
    assert ("/input" + fileType)[1] == 'i' && "/.eslintrc"[1] == '.' && "/tsconfig.json"[1] == 't';
    ["/.eslintrc", "/tsconfig.json"] + (if code != "" then ["/input" + fileType] else [])
  }

  predicate StartsWith(s: string, prefix: string) {
    |prefix| <= |s| && s[..|prefix|] == prefix
  }

  predicate EndsWith(s: string, suffix: string) {
    |suffix| <= |s| && s[|s| - |suffix|..] == suffix
  }

  /** The files handed to the compiler: no library files, no linter configuration, no JSON. */
  predicate IsScriptFileName(f: string) {
    !StartsWith(f, "/lib.") && !EndsWith(f, "/.eslintrc") && !EndsWith(f, ".json")
  }

  /** Of the initial files, at most the input file is a script file. */
  lemma InitialScriptFiles(code: string, fileType: string)
    ensures Filter(InitialOrder(code, fileType), IsScriptFileName) ==
            (if code != "" && IsScriptFileName("/input" + fileType) then ["/input" + fileType] else [])
  {
    assert !IsScriptFileName("/.eslintrc") by {
      assert EndsWith("/.eslintrc", "/.eslintrc");
    }
    assert !IsScriptFileName("/tsconfig.json") by {
      assert "/tsconfig.json"[9..] == ".json";
    }
    var order := InitialOrder(code, fileType);
    var input: seq<string> := if code != "" then ["/input" + fileType] else [];
    assert order[1..][1..] == input;
    assert Filter(order, IsScriptFileName) == Filter(input, IsScriptFileName);
    if code != "" {
      assert input[1..] == [];
    }
  }

  // ---------------------------------------------------------------------------
  // The file system

  class FileSystem {
    /** The file table. */
    var files: map<string, string>
    /** The table's keys in insertion order. */
    var order: seq<string>
    /** The watcher registry, in insertion order of its keys. */
    var registry: seq<WatchEntry>
    /** The next serial number for a regular expression or a debounced wrapper. */
    var serial: nat
    /** Every listener call made so far. */
    var events: seq<Event>
    /** Whether the regular expression built from the first path matches the second. */
    const matches: (string, string) -> bool

    ghost predicate Valid()
      reads this
    {
      && (forall f :: f in files <==> f in order)
      && Distinct(order)
      && DistinctKeys(registry)
      && (forall i :: 0 <= i < |registry| ==> registry[i].key.serial < serial)
      && (forall i :: 0 <= i < |registry| ==> Distinct(registry[i].listeners))
      && (forall i, l :: 0 <= i < |registry| && l in registry[i].listeners && l.Debounced? ==> l.serial < serial)
    }

    constructor (eslintrc: string, tsconfig: string, code: string, fileType: string,
                 matches: (string, string) -> bool)
      ensures Valid()
      ensures files == InitialFiles(eslintrc, tsconfig, code, fileType)
      ensures order == InitialOrder(code, fileType)
      ensures registry == [] && events == []
      ensures this.matches == matches
    {
      files := InitialFiles(eslintrc, tsconfig, code, fileType);
      order := InitialOrder(code, fileType);
      registry := [];
      serial := 0;
      events := [];
      this.matches := matches;
    }

    /**
     * Registers a callback for a path. A nonzero polling interval (500 when
     * none is given) wraps the callback in a new debounced function. The
     * registry lookup is by object, so a newly built pattern always gets a
     * new entry, holding just this listener.
     */
    method WatchFile(path: string, callback: CallbackId, pollingInterval: Option<nat>) returns (w: Watcher)
      requires Valid()
      modifies this
      ensures Valid()
      ensures var interval := if pollingInterval.None? then DefaultPollingInterval else pollingInterval.value;
              w.listener == if interval != 0 then Debounced(old(serial), callback) else Direct(callback)
      ensures w.listener.Debounced? ==> forall i :: 0 <= i < |old(registry)| ==> w.listener !in old(registry)[i].listeners
      ensures w.key.path == path
      ensures forall i :: 0 <= i < |old(registry)| ==> old(registry)[i].key != w.key
      ensures registry == old(registry) + [WatchEntry(w.key, [w.listener])]
      ensures files == old(files) && order == old(order) && events == old(events)
    {
      var interval := if pollingInterval.None? then DefaultPollingInterval else pollingInterval.value;
      var cb;
      if interval != 0 {
        cb := Debounced(serial, callback);
        serial := serial + 1;
      } else {
        cb := Direct(callback);
      }
      var expPath := PathRegExp(serial, path);
      serial := serial + 1;
      var i := FindEntry(registry, expPath);
      assert i == -1;  // the pattern was just built, so no entry has it as its key
      if i == -1 {
        registry := registry + [WatchEntry(expPath, [])];
        i := |registry| - 1;
      }
      assert registry[i] == WatchEntry(expPath, []) && i == |old(registry)|;
      assert SetAdd(registry[i].listeners, cb) == [cb];
      registry := registry[i := registry[i].(listeners := SetAdd(registry[i].listeners, cb))];
      assert registry == old(registry) + [WatchEntry(expPath, [cb])];
      w := Watcher(expPath, cb);
    }

    /** Closing a watcher removes its listener from its pattern's set, if the set is there. */
    method Close(w: Watcher)
      requires Valid()
      modifies this
      ensures Valid()
      ensures FindEntry(old(registry), w.key) == -1 ==> registry == old(registry)
      ensures FindEntry(old(registry), w.key) != -1 ==>
                registry == Closed(old(registry), FindEntry(old(registry), w.key), w.listener)
      ensures |registry| == |old(registry)|
      ensures forall i :: 0 <= i < |registry| ==> registry[i].key == old(registry)[i].key
      ensures forall i :: 0 <= i < |registry| && registry[i].key != w.key ==> registry[i] == old(registry)[i]
      ensures forall i :: 0 <= i < |registry| && registry[i].key == w.key ==>
                registry[i].listeners == Without(old(registry)[i].listeners, w.listener)
      ensures files == old(files) && order == old(order) && events == old(events) && serial == old(serial)
    {
      var i := FindEntry(registry, w.key);
      if i != -1 {
        registry := registry[i := registry[i].(listeners := Without(registry[i].listeners, w.listener))];
      }
    }

    /** Calls every listener of every pattern that matches the path. */
    method TriggerCallbacks(path: string, kind: nat)
      modifies this
      ensures events == old(events) + Fired(registry, matches, path, kind)
      ensures files == old(files) && order == old(order) && registry == old(registry) && serial == old(serial)
    {
      var i := 0;
      while i < |registry|
        invariant files == old(files) && order == old(order) && registry == old(registry) && serial == old(serial)
        invariant 0 <= i <= |registry|
        invariant events == old(events) + FiredUpTo(registry, matches, path, kind, i)
      {
        var entry := registry[i];
        if matches(entry.key.path, path) {
          var j := 0;
          while j < |entry.listeners|
            invariant files == old(files) && order == old(order) && registry == old(registry) && serial == old(serial)
            invariant 0 <= j <= |entry.listeners|
            invariant events == old(events) + FiredUpTo(registry, matches, path, kind, i)
                                + EventsFor(entry.listeners[..j], path, kind)
          {
            assert EventsFor(entry.listeners[..j + 1], path, kind) ==
                   EventsFor(entry.listeners[..j], path, kind) + [Event(entry.listeners[j], path, kind)];
            events := events + [Event(entry.listeners[j], path, kind)];
            j := j + 1;
          }
          assert entry.listeners[..j] == entry.listeners;
        }
        i := i + 1;
      }
    }

    /** Deletes a file, present or not, and signals the deletion with kind 1. */
    method DeleteFile(name: string)
      requires Valid()
      modifies this
      ensures Valid()
      ensures files == old(files) - {name}
      ensures forall f :: f != name ==> (f in files <==> f in old(files)) && (f in files ==> files[f] == old(files)[f])
      ensures order == Without(old(order), name)
      ensures events == old(events) + Fired(registry, matches, name, 1)
      ensures registry == old(registry) && serial == old(serial)
    {
      files := files - {name};
      order := Without(order, name);
      TriggerCallbacks(name, 1);
    }

    /**
     * Writes a file; missing or empty contents are stored as the empty
     * string. Writing what is already stored changes nothing and signals
     * nothing; otherwise the write is signalled with kind 2 when the file had
     * non-empty contents before, and with kind 0 when it was missing or empty.
     */
    method WriteFile(name: string, contents: Option<string>)
      requires Valid()
      modifies this
      ensures Valid()
      ensures var stored := if contents.None? then "" else contents.value;
              if name in old(files) && old(files)[name] == stored then
                files == old(files) && order == old(order) && events == old(events)
              else
                && files == old(files)[name := stored]
                && order == (if name in old(files) then old(order) else old(order) + [name])
                && events == old(events) +
                             Fired(registry, matches, name, if name in old(files) && old(files)[name] != "" then 2 else 0)
      ensures forall f :: f != name ==> (f in files <==> f in old(files)) && (f in files ==> files[f] == old(files)[f])
      ensures registry == old(registry) && serial == old(serial)
    {
      var stored := if contents.None? then "" else contents.value;
      var file := if name in files then Some(files[name]) else None;
      if file == Some(stored) {
        return;
      }
      if name !in files {
        order := order + [name];
      }
      files := files[name := stored];
      TriggerCallbacks(name, if file.Some? && file.value != "" then 2 else 0);
    }

    /** Removes a file without signalling anything. */
    method RemoveFile(name: string)
      requires Valid()
      modifies this
      ensures Valid()
      ensures files == old(files) - {name}
      ensures forall f :: f != name ==> (f in files <==> f in old(files)) && (f in files ==> files[f] == old(files)[f])
      ensures order == Without(old(order), name)
      ensures events == old(events) && registry == old(registry) && serial == old(serial)
    {
      files := files - {name};
      order := Without(order, name);
    }

    /** The files whose names match the pattern built from `path`, in table order. */
    function SearchFiles(path: string): (r: seq<string>)
      reads this
      requires Valid()
      ensures forall f :: f in r <==> f in files && matches(path, f)
      ensures Distinct(r)
    {
      Filter(order, f => matches(path, f))
    }

    /** The script files of the table, in table order. */
    function GetScriptFileNames(): (r: seq<string>)
      reads this
      requires Valid()
      ensures forall f :: f in r <==> f in files && IsScriptFileName(f)
      ensures Distinct(r)
    {
      Filter(order, IsScriptFileName)
    }
  }

  // ---------------------------------------------------------------------------
  // Closing a watcher

  /** The registry after closing a watcher on entry `i`. */
  function Closed(registry: seq<WatchEntry>, i: nat, l: Listener): (r: seq<WatchEntry>)
    requires i < |registry|
  {
    registry[i := registry[i].(listeners := Without(registry[i].listeners, l))]
  }

  /**
   * After closing, the listener is called only through other entries that
   * hold it (the same undebounced callback watched twice); other listeners
   * are called as before.
   */
  lemma ClosedListenerFiresOnlyElsewhere(registry: seq<WatchEntry>, matches: (string, string) -> bool,
                                         path: string, kind: nat, i: nat, l: Listener, e: Event)
    requires i < |registry|
    ensures e.listener == l ==>
              (e in Fired(Closed(registry, i, l), matches, path, kind) <==>
               e.path == path && e.kind == kind &&
               exists j :: 0 <= j < |registry| && j != i && matches(registry[j].key.path, path) &&
                           l in registry[j].listeners)
    ensures e.listener != l ==>
              (e in Fired(Closed(registry, i, l), matches, path, kind) <==> e in Fired(registry, matches, path, kind))
  {
    var closed := Closed(registry, i, l);
    FiredCharacterized(closed, matches, path, kind, e);
    FiredCharacterized(registry, matches, path, kind, e);
    assert forall j :: 0 <= j < |registry| ==> closed[j].key == registry[j].key;
    assert forall j :: 0 <= j < |registry| && j != i ==> closed[j] == registry[j];
  }
}
