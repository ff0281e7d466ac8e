/**
Starting applications by name.  An application whose file names a content handler starts that handler first, so
starting is re-entrant: the table holds a null placeholder for every name whose start is on the call stack.
*/
module ApplicationTable {

  // ---------------------------------------------------------------- names and files

  const SCHEME := "mojo:"
  const APP_DIR := "/boot/apps/"

  /** `GetPathFromApplicationName`; the empty path stands for a name without the scheme. */
  function PathOf(name: string): string {
    if SCHEME <= name then APP_DIR + name[|SCHEME|..] else ""
  }

  lemma PathsDiffer(a: string, b: string)
    requires PathOf(a) == PathOf(b) != ""
    ensures a == b
  {
    assert a == SCHEME + a[|SCHEME|..] && b == SCHEME + b[|SCHEME|..];
    assert PathOf(a)[|APP_DIR|..] == a[|SCHEME|..] && PathOf(b)[|APP_DIR|..] == b[|SCHEME|..];
  }

  /** A file: a script for a content handler, or a program that the system can or cannot launch. */
  datatype File = Script(handler: string) | Program(launches: bool)

  /** The files there are, by the name of the application. */
  type Files = map<string, File>

  predicate Startable(files: Files, name: string) {
    PathOf(name) != "" && name in files && (files[name].Script? || files[name].launches)
  }

  // ---------------------------------------------------------------- the table as a value

  /** Where the application request went: into a new process, to the content handler, or nowhere. */
  datatype Fate = Process | Handled | Dropped

  /** `Starting` is the null placeholder; a running application has been initialised `inits` times. */
  datatype Entry = Starting | Running(inits: nat, request: Fate)

  type Table = map<string, Entry>

  /** The names that could still be started. */
  function Absent(files: Files, t: Table): nat {
    |files.Keys - t.Keys|
  }

  lemma PlaceholderCounts(files: Files, t: Table, name: string)
    requires name in files && name !in t
    ensures Absent(files, t[name := Starting]) < Absent(files, t)
  {
    assert files.Keys - t[name := Starting].Keys == files.Keys - t.Keys - {name};
  }

  /** `Initialize` unless it has been done. */
  function Initialized(t: Table, name: string): Table {
    if name in t && t[name].Running? && t[name].inits == 0 then t[name := t[name].(inits := t[name].inits + 1)] else t
  }

  /** The whole call: the new table, and whether there is an instance. */
  function GetOrStart(files: Files, t: Table, name: string): (Table, bool)
    decreases Absent(files, t)
  {
    if name in t then (Initialized(t, name), t[name].Running?)
    else if !Startable(files, name) then (t, false)
    else if files[name].Program? then (t[name := Running(1, Process)], true)
    else
      PlaceholderCounts(files, t, name);
      var (t1, handled) := GetOrStart(files, t[name := Starting], files[name].handler);
      (t1[name := Running(1, if handled then Handled else Dropped)], true)
  }

  // ---------------------------------------------------------------- what a call keeps

  /** The names whose start is on the call stack. */
  function Pending(t: Table): set<string> {
    set name | name in t && t[name].Starting?
  }

  predicate OnceEach(t: Table) {
    forall name | name in t && t[name].Running? :: t[name].inits == 1
  }

  /** Everything in `t` stays as it is; what is new can be started, runs, and was initialised once. */
  predicate Extends(files: Files, t: Table, t': Table) {
    && (forall n | n in t :: n in t' && t'[n] == t[n])
    && (forall n | n in t' && n !in t :: Startable(files, n) && t'[n].Running? && t'[n].inits == 1)
  }

  lemma ExtendsKeeps(files: Files, t: Table, t': Table)
    requires OnceEach(t) && Extends(files, t, t')
    ensures OnceEach(t') && Pending(t') == Pending(t)
  {
    forall n ensures n in Pending(t') <==> n in Pending(t) {
      assert n in t ==> n in t' && t'[n] == t[n];
    }
  }

  lemma ReplacesPlaceholder(files: Files, t: Table, name: string, t1: Table, request: Fate)
    requires name !in t && Startable(files, name) && Extends(files, t[name := Starting], t1)
    ensures Extends(files, t, t1[name := Running(1, request)])
  {
    hide Startable;
    var t' := t1[name := Running(1, request)];
    forall n | n in t ensures n in t' && t'[n] == t[n] {
      assert n in t[name := Starting] && t[name := Starting][n] == t[n];
    }
    forall n | n in t' && n !in t ensures Startable(files, n) && t'[n].Running? && t'[n].inits == 1 {
      if n != name { assert n !in t[name := Starting]; }
    }
  }

  lemma {:induction false} StartExtends(files: Files, t: Table, name: string)
    requires OnceEach(t)
    ensures Extends(files, t, GetOrStart(files, t, name).0)
    decreases Absent(files, t)
  {
    hide Extends, PathOf;
    if name in t {
      ExtendsSelf(files, t);
    } else if !Startable(files, name) {
      ExtendsSelf(files, t);
    } else if files[name].Program? {
      ExtendsSelf(files, t[name := Starting]);
      ReplacesPlaceholder(files, t, name, t[name := Starting], Process);
      assert t[name := Starting][name := Running(1, Process)] == t[name := Running(1, Process)];
    } else {
      PlaceholderCounts(files, t, name);
      StartExtends(files, t[name := Starting], files[name].handler);
      var (t1, handled) := GetOrStart(files, t[name := Starting], files[name].handler);
      ReplacesPlaceholder(files, t, name, t1, if handled then Handled else Dropped);
    }
  }

  lemma ExtendsSelf(files: Files, t: Table)
    ensures Extends(files, t, t)
  {
  }

  /**
  Nested starts terminate, and a call leaves exactly those placeholders that it found, keeps every running
  application as it was, and adds only applications that have been initialised once.
  */
  lemma StartKeeps(files: Files, t: Table, name: string)
    requires OnceEach(t)
    ensures var t' := GetOrStart(files, t, name).0;
      && OnceEach(t')
      && Pending(t') == Pending(t)
      && (forall n | n in t :: n in t' && t'[n] == t[n])
      && (forall n | n in t' && n !in t :: Startable(files, n) && t'[n].Running?)
  {
    hide GetOrStart, Pending, Startable;
    StartExtends(files, t, name);
    ExtendsKeeps(files, t, GetOrStart(files, t, name).0);
  }

  /** A call finds or makes an instance exactly when one is running, or none exists and the file can be started. */
  lemma {:induction false} StartSucceeds(files: Files, t: Table, name: string)
    requires OnceEach(t)
    ensures var (t', ok) := GetOrStart(files, t, name);
      && (ok <==> if name in t then t[name].Running? else Startable(files, name))
      && (ok <==> name in t' && t'[name].Running?)
  {
    StartKeeps(files, t, name);
  }

  /**
  A script counts as started even if its handler is not: the request reaches the handler exactly if the handler is
  another application that runs already, or is not in the table and can be started.
  */
  lemma ScriptRequest(files: Files, t: Table, name: string)
    requires OnceEach(t) && name !in t && Startable(files, name) && files[name].Script?
    ensures var t' := GetOrStart(files, t, name).0; var h := files[name].handler;
      && name in t' && t'[name].Running?
      && var handled := h != name && (if h in t then t[h].Running? else Startable(files, h));
      && t'[name].request == if handled then Handled else Dropped
  {
    PlaceholderCounts(files, t, name);
    StartSucceeds(files, t[name := Starting], files[name].handler);
    StartKeeps(files, t, name);
  }

  /** A script whose handler cannot be started: the caller gets an instance, and its request is lost. */
  lemma ScriptRequestIsLost()
    ensures GetOrStart(map["mojo:a" := Script("mojo:b")], map[], "mojo:a") ==
      (map["mojo:a" := Running(1, Dropped)], true)
  {
    var files: Files := map["mojo:a" := Script("mojo:b")];
    var t: Table := map["mojo:a" := Starting];
    assert "mojo:a"[5] != "mojo:b"[5];
    assert Startable(files, "mojo:a") && "mojo:b" !in files && "mojo:b" !in t;
    PlaceholderCounts(files, map[], "mojo:a");
    assert map[]["mojo:a" := Starting] == t;
    assert GetOrStart(files, t, "mojo:b") == (t, false);
    assert t["mojo:a" := Running(1, Dropped)] == map["mojo:a" := Running(1, Dropped)];
  }

  /** After the outermost call every entry is an application that was initialised exactly once. */
  lemma OutermostCall(files: Files, t: Table, name: string)
    requires OnceEach(t) && Pending(t) == {}
    ensures var t' := GetOrStart(files, t, name).0;
      forall n | n in t' :: t'[n].Running? && t'[n].inits == 1
  {
    StartKeeps(files, t, name);
    var t' := GetOrStart(files, t, name).0;
    assert forall n | n in t' :: n !in Pending(t');
  }

  datatype Call = Start(name: string) | Stop(name: string)

  function Run(files: Files, t: Table, calls: seq<Call>): Table
    decreases |calls|
  {
    if calls == [] then t
    else
      var t1 := match calls[0] case Start(name) => GetOrStart(files, t, name).0 case Stop(name) => t - {name};
      Run(files, t1, calls[1..])
  }

  /** The same over every sequence of outermost calls and stops, from the empty table. */
  lemma {:induction false} RunIsClean(files: Files, t: Table, calls: seq<Call>)
    requires OnceEach(t) && Pending(t) == {}
    ensures OnceEach(Run(files, t, calls)) && Pending(Run(files, t, calls)) == {}
    decreases |calls|
  {
    if calls != [] {
      match calls[0]
      case Start(name) =>
        StartKeeps(files, t, name);
        RunIsClean(files, GetOrStart(files, t, name).0, calls[1..]);
      case Stop(name) =>
        assert forall n | n in Pending(t - {name}) :: n in Pending(t);
        RunIsClean(files, t - {name}, calls[1..]);
    }
  }

  // ---------------------------------------------------------------- the objects

  lemma Found(files: Files, t: Table, name: string)
    requires OnceEach(t)
    ensures name in t ==> GetOrStart(files, t, name) == (t, t[name].Running?)
    ensures var (t', ok) := GetOrStart(files, t, name); ok ==> name in t' && t'[name].Running? && t'[name].inits == 1
  {
    StartSucceeds(files, t, name);
    StartKeeps(files, t, name);
  }

  lemma NotFound(files: Files, t: Table, name: string)
    requires OnceEach(t) && name !in t
    ensures OnceEach(t[name := Starting]) && Pending(t[name := Starting]) == Pending(t) + {name} && name !in Pending(t)
    ensures name in files ==> Absent(files, t[name := Starting]) < Absent(files, t)
    ensures GetOrStart(files, t, name) ==
      if !Startable(files, name) then (t, false)
      else if files[name].Program? then (t[name := Starting][name := Running(1, Process)], true)
      else
        var (t1, handled) := GetOrStart(files, t[name := Starting], files[name].handler);
        (t1[name := Running(1, if handled then Handled else Dropped)], true)
  {
    hide Startable, Absent;
    if name in files { PlaceholderCounts(files, t, name); }
    assert t[name := Starting][name := Running(1, Process)] == t[name := Running(1, Process)];
    assert forall n :: n in Pending(t[name := Starting]) <==> n in Pending(t) + {name};
  }

  /** The manager with its table; `onStack` are the names whose start has begun and not ended. */
  class ApplicationManager {
    const files: Files
    var table: Table
    ghost var onStack: set<string>

    /** An entry is null exactly while its start is on the call stack. */
    ghost predicate Valid()
      reads this
    {
      OnceEach(table) && Pending(table) == onStack
    }

    constructor (files: Files)
      ensures Valid() && table == map[] && this.files == files && onStack == {}
    {
      this.files := files;
      table, onStack := map[], {};
    }

    method GetOrStartApplicationInstance(name: string) returns (found: bool)
      requires Valid()
      modifies this
      ensures Valid() && onStack == old(onStack)
      ensures (table, found) == GetOrStart(files, old(table), name)
      decreases 4 * Absent(files, table) + 3
    {
      hide GetOrStart, Pending, Startable, Absent;
      StartKeeps(files, table, name);
      Found(files, table, name);
      found := GetOrStartApplication(name);
      if found && table[name].inits == 0 {
        table := table[name := table[name].(inits := table[name].inits + 1)];
      }
      assert table == GetOrStart(files, old(table), name).0;
    }

    /** `ApplicationTable::GetOrStartApplication`: a new instance is not initialised yet. */
    method GetOrStartApplication(name: string) returns (found: bool)
      requires Valid()
      modifies this
      ensures onStack == old(onStack)
      ensures var (t, ok) := GetOrStart(files, old(table), name);
        && found == ok
        && (found ==> name in t && t[name].Running?)
        && table == if name in old(table) || !ok then t else t[name := t[name].(inits := 0)]
      decreases 4 * Absent(files, table) + 2
    {
      hide GetOrStart, Pending, PathOf, Absent;
      Found(files, table, name);
      if name in table {
        return table[name].Running?;
      }
      NotFound(files, table, name);
      table := table[name := Starting];
      onStack := onStack + {name};
      var started, request := Launch(name);
      onStack := onStack - {name};
      if !started {
        table := table - {name};
        assert table == old(table);
        return false;
      }
      ghost var t := GetOrStart(files, old(table), name).0;
      assert t == table[name := Running(1, request)] by {
        if files[name].Script? {
          assert table == GetOrStart(files, old(table)[name := Starting], files[name].handler).0;
        }
      }
      table := table[name := Running(0, request)];
      assert table == t[name := t[name].(inits := 0)];
      return true;
    }

    /** `LaunchApplication`: whether a load has begun, and where the request went. */
    method Launch(name: string) returns (started: bool, request: Fate)
      requires Valid() && name in table && table[name].Starting?
      modifies this
      ensures Valid() && onStack == old(onStack)
      ensures started == Startable(files, name)
      ensures if started && files[name].Script? then
          var (t, handled) := GetOrStart(files, old(table), files[name].handler);
          table == t && request == if handled then Handled else Dropped
        else table == old(table) && request == if started then Process else Dropped
      decreases if name in files then 4 * Absent(files, table) + 5 else 0
    {
      if PathOf(name) == "" || name !in files { return false, Dropped; }
      match files[name]
      case Script(handler) =>
        var handled := GetOrStartApplicationInstance(handler);
        return true, if handled then Handled else Dropped;
      case Program(launches) => return launches, if launches then Process else Dropped;
    }

    /** The error handler of a connection: the application is gone. */
    method StopApplication(name: string)
      requires Valid() && onStack == {}
      modifies this
      ensures Valid() && table == old(table) - {name} && onStack == {}
    {
      ghost var was := table;
      table := table - {name};
      assert forall n :: n in Pending(table) ==> n in Pending(was);
    }
  }
}
