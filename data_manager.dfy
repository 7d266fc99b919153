/** The task/config store: one JSON record `{tasks, user_config, meta}`
    kept in a file, which every public call loads, changes and saves back.

    The file is the field `file`: missing, present but not valid JSON, or
    holding a record. Whether the file can be opened for writing is the
    constant `writable`; a failure to open it is swallowed and leaves the
    file as it was.
    Task ids (`uuid4`) and creation times (`datetime.now()`) are parameters. */
module Store {
  import opened Base

  /** The JSON values stored in the configuration and in task parameters. */
  datatype Value = Bool(b: bool) | Int(i: int) | Str(s: string)

  type Config = map<string, Value>

  datatype Task = Task(
    id: string,
    title: string,
    taskType: string,
    params: map<string, Value>,
    createdAt: int,
    status: string)

  datatype Meta = Meta(version: string, createdAt: int)

  /** The top-level JSON object. Each key may be absent from a file written
      by someone else, hence the options. */
  datatype Record = Record(tasks: Option<seq<Task>>, userConfig: Option<Config>, meta: Option<Meta>)

  datatype FileState = Missing | Corrupt | Holds(record: Record)

  /** A result, or the `KeyError` Python raises on a missing key. */
  datatype Outcome<T> = Ok(value: T) | KeyError(key: string)

  /** What a fresh installation writes: no tasks, engineer mode and autostart
      off, and version metadata. */
  function DefaultRecord(now: int): (r: Record)
    ensures r.tasks == Some([])
    ensures r.userConfig.Some? && r.userConfig.value.Keys == {"engineer_mode", "auto_start"}
    ensures r.userConfig.value["engineer_mode"] == Bool(false) && r.userConfig.value["auto_start"] == Bool(false)
    ensures r.meta == Some(Meta("1.0.0", now))
  {
    Record(Some([]),
           Some(map["engineer_mode" := Bool(false), "auto_start" := Bool(false)]),
           Some(Meta("1.0.0", now)))
  }

  /** What `_load_json` returns when the file is missing or not valid JSON. */
  const Fallback: Record := Record(Some([]), Some(map[]), None)

  /** `_load_json`. */
  function Load(f: FileState): (r: Record)
    ensures f.Holds? ==> r == f.record
    ensures !f.Holds? ==> r.tasks == Some([]) && r.userConfig == Some(map[]) && r.meta == None
  {
    if f.Holds? then f.record else Fallback
  }

  /** `data.get("tasks", [])`. */
  function TasksOf(d: Record): (ts: seq<Task>)
    ensures d.tasks.Some? ==> ts == d.tasks.value
    ensures d.tasks.None? ==> ts == []
  {
    d.tasks.GetOr([])
  }

  /** `data.get("user_config", {})`. */
  function ConfigOf(d: Record): (c: Config)
    ensures d.userConfig.Some? ==> c == d.userConfig.value
    ensures d.userConfig.None? ==> c == map[]
  {
    d.userConfig.GetOr(map[])
  }

  predicate HasId(ts: seq<Task>, id: string) {
    exists k :: 0 <= k < |ts| && ts[k].id == id
  }

  /** The comprehension `[t for t in tasks if t["id"] != task_id]`. */
  function WithoutId(ts: seq<Task>, id: string): (r: seq<Task>)
    ensures |r| <= |ts|
    ensures forall k :: 0 <= k < |r| ==> r[k].id != id
  {
    if ts == [] then []
    else (if ts[0].id == id then [] else [ts[0]]) + WithoutId(ts[1..], id)
  }

  /** The filter keeps exactly the tasks with another id, so none with this
      one remains, and it shortens the list exactly when some task had the
      id. */
  lemma {:induction false} WithoutIdSpec(ts: seq<Task>, id: string)
    ensures var r := WithoutId(ts, id);
            && (forall t :: t in r <==> t in ts && t.id != id)
            && !HasId(r, id)
            && |r| <= |ts|
            && (|r| < |ts| <==> HasId(ts, id))
  {
    if ts != [] {
      var rest := WithoutId(ts[1..], id);
      WithoutIdSpec(ts[1..], id);
      assert HasId(ts, id) <==> ts[0].id == id || HasId(ts[1..], id) by {
        if HasId(ts[1..], id) {
          var k :| 0 <= k < |ts[1..]| && ts[1..][k].id == id;
          assert ts[k + 1].id == id;
        }
        if HasId(ts, id) && ts[0].id != id {
          var k :| 0 <= k < |ts| && ts[k].id == id;
          assert ts[1..][k - 1].id == id;
        }
      }
      assert forall t :: t in ts <==> t == ts[0] || t in ts[1..] by {
        assert ts == [ts[0]] + ts[1..];
      }
      var r := WithoutId(ts, id);
      assert !HasId(r, id) by {
        forall k | 0 <= k < |r| ensures r[k].id != id {
          assert r[k] in r;
        }
      }
    }
  }

  /** The filter keeps order: filtering a concatenation is concatenating the
      filtered parts. */
  lemma {:induction false} WithoutIdAppend(a: seq<Task>, b: seq<Task>, id: string)
    ensures WithoutId(a + b, id) == WithoutId(a, id) + WithoutId(b, id)
  {
    if a == [] {
      assert a + b == b;
    } else {
      assert (a + b)[0] == a[0] && (a + b)[1..] == a[1..] + b;
      WithoutIdAppend(a[1..], b, id);
    }
  }

  /** When no task has the id, the filter returns the list unchanged. */
  lemma {:induction false} WithoutAbsentId(ts: seq<Task>, id: string)
    requires !HasId(ts, id)
    ensures WithoutId(ts, id) == ts
  {
    if ts != [] {
      assert !HasId(ts[1..], id) by {
        forall k | 0 <= k < |ts[1..]| ensures ts[1..][k].id != id {
          assert ts[1..][k] == ts[k + 1];
        }
      }
      assert ts[0].id != id;
      WithoutAbsentId(ts[1..], id);
      assert ts == [ts[0]] + ts[1..];
    }
  }

  /** The task `add_task` builds: `params` defaults to an empty dictionary,
      status is "active". */
  function NewTask(id: string, title: string, taskType: string, params: Option<map<string, Value>>, now: int): (t: Task)
    ensures t.id == id && t.title == title && t.taskType == taskType && t.createdAt == now
    ensures t.status == "active"
    ensures t.params == if params.Some? then params.value else map[]
  {
    Task(id, title, taskType, params.GetOr(map[]), now, "active")
  }

  /** `data["tasks"].append(task)`: a `KeyError` when the record has no
      "tasks" key. */
  function Append(d: Record, task: Task): (r: Outcome<Record>)
    ensures d.tasks.None? <==> r == KeyError("tasks")
    ensures r.Ok? ==> TasksOf(r.value) == TasksOf(d) + [task] && r.value.tasks.Some?
    ensures r.Ok? ==> r.value.userConfig == d.userConfig && r.value.meta == d.meta
  {
    if d.tasks.None? then KeyError("tasks") else Ok(d.(tasks := Some(d.tasks.value + [task])))
  }

  /** The record `update_config(key, value)` saves. */
  function SetConfig(d: Record, key: string, value: Value): (r: Record)
    ensures r.userConfig.Some? && key in r.userConfig.value && r.userConfig.value[key] == value
    ensures forall k :: k != key ==> (k in ConfigOf(r) <==> k in ConfigOf(d))
    ensures forall k :: k != key && k in ConfigOf(d) ==> ConfigOf(r)[k] == ConfigOf(d)[k]
    ensures r.tasks == d.tasks && r.meta == d.meta
  {
    d.(userConfig := Some(ConfigOf(d)[key := value]))
  }

  /** Deleting a task that `add_task` has just appended restores the record
      it was appended to, provided no earlier task carried the same id. */
  lemma AddThenDelete(d: Record, task: Task)
    requires d.tasks.Some? && !HasId(TasksOf(d), task.id)
    ensures Append(d, task).Ok?
    ensures var d' := Append(d, task).value;
            HasId(TasksOf(d'), task.id) &&
            d'.(tasks := Some(WithoutId(TasksOf(d'), task.id))) == d
  {
    var ts := TasksOf(d);
    var d' := Append(d, task).value;
    assert TasksOf(d') == ts + [task];
    WithoutIdAppend(ts, [task], task.id);
    WithoutAbsentId(ts, task.id);
    assert [task][1..] == [];
    assert WithoutId([task], task.id) == [];
    assert WithoutId(ts + [task], task.id) == ts;
    assert (ts + [task])[|ts|].id == task.id;
  }

  class DataManager {
    const writable: bool
    var file: FileState

    /** `_init_data` / `_ensure_file_exists`: a missing file is created with
        the default record; an existing one, valid JSON or not, is kept. */
    constructor (initial: FileState, writable: bool, now: int)
      ensures this.writable == writable
      ensures file == if initial.Missing? && writable then Holds(DefaultRecord(now)) else initial
    {
      this.writable := writable;
      file := initial;
      new;
      if initial.Missing? {
        SaveJson(DefaultRecord(now));
      }
    }

    method LoadJson() returns (data: Record)
      ensures data == Load(file)
    {
      if file.Holds? {
        data := file.record;
      } else {
        data := Fallback;
      }
    }

    /** `_save_json`: a failure to open the file is logged and ignored. */
    method SaveJson(data: Record)
      modifies this
      ensures file == if writable then Holds(data) else old(file)
    {
      if writable {
        file := Holds(data);
      }
    }

    method GetAllTasks() returns (tasks: seq<Task>)
      ensures file.Holds? && file.record.tasks.Some? ==> tasks == file.record.tasks.value
      ensures !(file.Holds? && file.record.tasks.Some?) ==> tasks == []
    {
      var data := LoadJson();
      tasks := TasksOf(data);
    }

    method GetConfig() returns (config: Config)
      ensures file.Holds? && file.record.userConfig.Some? ==> config == file.record.userConfig.value
      ensures !(file.Holds? && file.record.userConfig.Some?) ==> config == map[]
    {
      var data := LoadJson();
      config := ConfigOf(data);
    }

    /** `add_task`: appends one task and returns its id, or raises the
        `KeyError` of a record without "tasks" (nothing is saved then). */
    method AddTask(title: string, taskType: string, params: Option<map<string, Value>>, id: string, now: int)
      returns (r: Outcome<string>)
      modifies this
      ensures var d := Load(old(file));
              var saved := Append(d, NewTask(id, title, taskType, params, now));
              && (saved.KeyError? ==> r == KeyError("tasks") && file == old(file))
              && (saved.Ok? ==> r == Ok(id) && file == if writable then Holds(saved.value) else old(file))
    {
      var data := LoadJson();
      var task := NewTask(id, title, taskType, params, now);
      var appended := Append(data, task);
      if appended.KeyError? {
        return KeyError("tasks");
      }
      SaveJson(appended.value);
      r := Ok(id);
    }

    /** `delete_task`: removes every task with the id and saves, reporting
        whether any was removed; when none has the id nothing is saved. */
    method DeleteTask(id: string) returns (removed: bool)
      modifies this
      ensures var d := Load(old(file));
              && (removed <==> HasId(TasksOf(d), id))
              && (!removed ==> file == old(file))
              && (removed ==> file == if writable then Holds(d.(tasks := Some(WithoutId(TasksOf(d), id)))) else old(file))
    {
      var data := LoadJson();
      var tasks := TasksOf(data);
      var kept := WithoutId(tasks, id);
      WithoutIdSpec(tasks, id);
      if |kept| < |tasks| {
        SaveJson(data.(tasks := Some(kept)));
        return true;
      }
      return false;
    }

    /** `update_config`: sets one key of the configuration, creating the
        configuration when the record has none, and saves. */
    method UpdateConfig(key: string, value: Value)
      modifies this
      ensures file == if writable then Holds(SetConfig(Load(old(file)), key, value)) else old(file)
    {
      var data := LoadJson();
      if data.userConfig.None? {
        data := data.(userConfig := Some(map[]));
      }
      data := data.(userConfig := Some(data.userConfig.value[key := value]));
      SaveJson(data);
    }
  }
}
