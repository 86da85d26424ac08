/**
 * The one-line-per-task storage format and the loader that rebuilds a
 * `TodoList` from the lines of the storage file. A line is
 * `id,description,priority,completed` with the flag written as `True` or
 * `False`; nothing is escaped.
 */
module Storage {
  import opened Wrappers
  import opened PyText
  import opened TodoLists

  /** The status word shown for a completion flag. */
  function StatusText(done: bool): (r: string)
    ensures r == "completed" <==> done
    ensures r == "incompleted" <==> !done
  {
    if done then "completed" else "incompleted"
  }

  /** The line written for one task, without its line break. */
  function EncodeLine(t: Task): string {
    IntToString(t.id) + "," + t.description + "," + t.priority + "," + BoolToString(t.completed)
  }

  /**
   * A written line holds a line feed or carriage return only when its
   * description or priority does.
   */
  lemma EncodeLineBreaks(t: Task, x: char)
    requires x == '\n' || x == '\r'
    ensures x in EncodeLine(t) <==> x in t.description || x in t.priority
  {
    var a, b, c, d := IntToString(t.id), t.description, t.priority, BoolToString(t.completed);
    IdTextShape(t.id);
    assert x !in a && x !in d;
    assert EncodeLine(t) == a + [','] + b + [','] + c + [','] + d;
  }

  /** The lines the save writes, in list order, each ending in a line break. */
  function SaveLines(ts: seq<Task>): seq<string> {
    seq(|ts|, k requires 0 <= k < |ts| => EncodeLine(ts[k]) + "\n")
  }

  /** The text of the file the save writes. */
  function SaveText(ts: seq<Task>): string {
    Concat(SaveLines(ts))
  }

  /** Text holding no comma, line feed or carriage return: it survives a save and reload as one field. */
  predicate IsPlainField(s: string) {
    ',' !in s && '\n' !in s && '\r' !in s
  }

  /**
   * Why a line cannot be loaded: its first field is not an integer
   * (`ValueError`), or it has fewer than three fields (`IndexError`).
   */
  datatype LoadError = InvalidId | MissingField

  /**
   * The task built from one stored line. The flag read from the fourth field
   * is passed in the due-date position, so it ends up in `dueDate` and
   * `completed` keeps its default, false.
   */
  function DecodeLine(line: string): (r: Result<Task, LoadError>)
    ensures var f := Split(Strip(line), ',');
      r.Ok? <==> ParseInt(f[0]).Some? && |f| >= 3
    ensures var f := Split(Strip(line), ',');
      ParseInt(f[0]).None? ==> r == Err(InvalidId)
    ensures var f := Split(Strip(line), ',');
      ParseInt(f[0]).Some? && |f| < 3 ==> r == Err(MissingField)
    ensures var f := Split(Strip(line), ',');
      r.Ok? ==> r.value == Task(ParseInt(f[0]).value, f[1], f[2], StrayBool(|f| >= 4 && f[3] == "True"))
  {
    var fields := Split(Strip(line), ',');
    match ParseInt(fields[0])
    case None => Err(InvalidId)
    case Some(id) =>
      if |fields| < 3 then Err(MissingField)
      else
        var flag := |fields| >= 4 && fields[3] == "True";
        Ok(Task(id, fields[1], fields[2], StrayBool(flag)))
  }

  /** A stored line is exactly its four fields joined by commas. */
  lemma EncodeLineFields(t: Task)
    ensures EncodeLine(t) == Join([IntToString(t.id), t.description, t.priority, BoolToString(t.completed)], ',')
  {
    var a, b, c, d := IntToString(t.id), t.description, t.priority, BoolToString(t.completed);
    var fs := [a, b, c, d];
    assert fs[1..] == [b, c, d] && fs[1..][1..] == [c, d] && fs[1..][1..][1..] == [d];
    assert Join([c, d], ',') == c + [','] + d;
    assert Join([b, c, d], ',') == b + [','] + (c + [','] + d);
    assert Join(fs, ',') == a + [','] + (b + [','] + (c + [','] + d));
  }

  /** `str(n)` is non-empty, starts with `-` or a digit and has no comma. */
  lemma IdTextShape(n: int)
    ensures IntToString(n) != [] && !IsSpace(IntToString(n)[0])
    ensures ',' !in IntToString(n) && '\n' !in IntToString(n) && '\r' !in IntToString(n)
  {
    var s := IntToString(n);
    assert forall k :: 0 <= k < |s| ==> s[k] == '-' || IsDigit(s[k]);
  }

  /** A written line loses exactly its line break to `strip`. */
  lemma StripWrittenLine(t: Task)
    ensures Strip(EncodeLine(t) + "\n") == EncodeLine(t)
  {
    var line := EncodeLine(t);
    IdTextShape(t.id);
    assert line[0] == IntToString(t.id)[0];
    assert line[|line| - 1] == 'e';
    TrimTrailingBlank(line, '\n', IsSpace);
  }

  /** The fields of a written line are the task's id text, description, priority and flag text. */
  lemma SplitWrittenLine(t: Task)
    requires ',' !in t.description && ',' !in t.priority
    ensures Split(Strip(EncodeLine(t) + "\n"), ',')
      == [IntToString(t.id), t.description, t.priority, BoolToString(t.completed)]
  {
    StripWrittenLine(t);
    EncodeLineFields(t);
    IdTextShape(t.id);
    SplitJoin([IntToString(t.id), t.description, t.priority, BoolToString(t.completed)], ',');
  }

  /**
   * Decoding a written line gives back the id, description and priority when
   * neither text holds a comma; the completion flag comes back in the
   * due-date slot and `completed` is false.
   */
  lemma DecodeEncodeLine(t: Task)
    requires ',' !in t.description && ',' !in t.priority
    ensures DecodeLine(EncodeLine(t) + "\n") == Ok(Task(t.id, t.description, t.priority, StrayBool(t.completed)))
  {
    SplitWrittenLine(t);
    ParseIntToString(t.id);
  }

  /** The task the loader keeps for a decoded line: adding it clears the due date. */
  function Loaded(t: Task): (r: Task)
    ensures r.id == t.id && r.description == t.description && r.priority == t.priority
    ensures r.completed == t.completed && r.dueDate == NoDueDate
  {
    t.(dueDate := NoDueDate)
  }

  /** Each line decoded on its own, in order. */
  function DecodeAll(lines: seq<string>): (r: seq<Result<Task, LoadError>>)
    ensures |r| == |lines|
    ensures forall k :: 0 <= k < |r| && r[k].Ok? ==> !r[k].value.completed
  {
    if lines == [] then [] else DecodeAll(lines[..|lines| - 1]) + [DecodeLine(lines[|lines| - 1])]
  }

  /** The result at each position is the decoding of the line there. */
  lemma {:induction false} DecodeAllAt(lines: seq<string>, k: nat)
    requires k < |lines|
    ensures DecodeAll(lines)[k] == DecodeLine(lines[k])
  {
    if k < |lines| - 1 {
      var front := lines[..|lines| - 1];
      DecodeAllAt(front, k);
    }
  }

  /** Decoding a prefix of the lines gives the prefix of the results. */
  lemma {:induction false} DecodeAllPrefix(lines: seq<string>, n: nat)
    requires n <= |lines|
    ensures DecodeAll(lines)[..n] == DecodeAll(lines[..n])
    decreases |lines|
  {
    if n < |lines| {
      var front := lines[..|lines| - 1];
      assert front[..n] == lines[..n];
      DecodeAllPrefix(front, n);
      assert DecodeAll(lines)[..n] == DecodeAll(front)[..n];
    } else {
      assert lines[..n] == lines;
    }
  }

  /**
   * The tasks the loader adds for a sequence of decoded lines, in order, or
   * the error of the first line that failed.
   */
  function Collect(results: seq<Result<Task, LoadError>>): (r: Result<seq<Task>, LoadError>)
    ensures r.Ok? <==> forall k :: 0 <= k < |results| ==> results[k].Ok?
    ensures r.Ok? ==> |r.value| == |results|
    ensures r.Ok? ==> forall k :: 0 <= k < |results| ==> r.value[k] == Loaded(results[k].value)
    ensures r.Err? ==> exists k :: 0 <= k < |results| && results[k] == Err(r.error) && AllOkBefore(results, k)
  {
    if results == [] then Ok([])
    else
      var front := Collect(results[..|results| - 1]);
      var last := results[|results| - 1];
      if front.Err? then
        assert forall j :: 0 <= j < |results| - 1 ==> results[..|results| - 1][j] == results[j];
        Err(front.error)
      else if last.Err? then
        assert AllOkBefore(results, |results| - 1);
        Err(last.error)
      else
        Ok(front.value + [Loaded(last.value)])
  }

  /** Every result before position `k` is a success. */
  predicate AllOkBefore(results: seq<Result<Task, LoadError>>, k: nat) {
    forall j :: 0 <= j < k && j < |results| ==> results[j].Ok?
  }

  /** Once a prefix of the results fails, the whole load fails with that error. */
  lemma {:induction false} CollectFailsEarly(results: seq<Result<Task, LoadError>>, n: nat)
    requires n <= |results| && Collect(results[..n]).Err?
    ensures Collect(results) == Collect(results[..n])
    decreases |results|
  {
    if n < |results| {
      var front := results[..|results| - 1];
      assert front[..n] == results[..n];
      CollectFailsEarly(front, n);
    } else {
      assert results[..n] == results;
    }
  }

  /**
   * The tasks loaded from the lines of a storage file, in order, or the
   * error of the first line that cannot be decoded.
   */
  function LoadTasks(lines: seq<string>): (r: Result<seq<Task>, LoadError>)
    ensures r.Ok? ==> |r.value| == |lines|
    ensures r.Ok? ==> forall t :: t in r.value ==> !t.completed && t.dueDate == NoDueDate
  {
    Collect(DecodeAll(lines))
  }

  /** The lines load exactly when every one of them decodes. */
  lemma LoadTasksOk(lines: seq<string>)
    ensures LoadTasks(lines).Ok? <==> forall k :: 0 <= k < |lines| ==> DecodeLine(lines[k]).Ok?
  {
    forall k | 0 <= k < |lines| {
      DecodeAllAt(lines, k);
    }
  }

  /**
   * Reads a to-do list from the text of a storage file: each line the file
   * yields is decoded and added without a priority or due date. A line that
   * cannot be decoded stops the load.
   */
  method LoadFromFile(text: string) returns (r: Result<TodoList, LoadError>)
    ensures r.Ok? ==> fresh(r.value) && LoadTasks(ReadLines(text)) == Ok(r.value.tasks)
    ensures r.Err? ==> LoadTasks(ReadLines(text)) == Err(r.error)
  {
    r := LoadFromLines(ReadLines(text));
  }

  /** The loop of the load over the lines the file yields. */
  method LoadFromLines(lines: seq<string>) returns (r: Result<TodoList, LoadError>)
    ensures r.Ok? ==> fresh(r.value) && LoadTasks(lines) == Ok(r.value.tasks)
    ensures r.Err? ==> LoadTasks(lines) == Err(r.error)
  {
    var todo := new TodoList();
    var i := 0;
    while i < |lines|
      invariant 0 <= i <= |lines|
      invariant fresh(todo)
      invariant Collect(DecodeAll(lines[..i])) == Ok(todo.tasks)
    {
      var decoded := DecodeLine(lines[i]);
      assert lines[..i + 1][..i] == lines[..i];
      assert DecodeAll(lines[..i + 1]) == DecodeAll(lines[..i]) + [decoded];
      if decoded.Err? {
        DecodeAllPrefix(lines, i + 1);
        CollectFailsEarly(DecodeAll(lines), i + 1);
        return Err(decoded.error);
      }
      var _ := todo.AddTask(decoded.value);
      i := i + 1;
    }
    assert lines[..i] == lines;
    return Ok(todo);
  }

  /**
   * Reading the saved file back yields one line per task, in order, when no
   * description or priority holds a line feed or carriage return.
   */
  lemma ReadSavedText(ts: seq<Task>)
    requires forall t :: t in ts ==> '\n' !in t.description + t.priority && '\r' !in t.description + t.priority
    ensures ReadLines(SaveText(ts)) == SaveLines(ts)
  {
    var lines := SaveLines(ts);
    forall k | 0 <= k < |lines|
      ensures IsLine(lines[k]) && '\r' !in lines[k]
    {
      assert ts[k] in ts;
      var e := EncodeLine(ts[k]);
      EncodeLineBreaks(ts[k], '\n');
      EncodeLineBreaks(ts[k], '\r');
      assert lines[k][..|lines[k]| - 1] == e;
    }
    ReadConcatLines(lines);
  }

  /**
   * Loading the lines of a save keeps the number, order, ids, descriptions
   * and priorities of tasks whose texts hold no comma, but every task comes
   * back incomplete and without a due date.
   */
  lemma LoadSavedLines(ts: seq<Task>)
    requires forall t :: t in ts ==> ',' !in t.description && ',' !in t.priority
    ensures LoadTasks(SaveLines(ts)).Ok?
    ensures forall k :: 0 <= k < |ts| ==>
      LoadTasks(SaveLines(ts)).value[k] == ts[k].(dueDate := NoDueDate, completed := false)
  {
    var lines := SaveLines(ts);
    var results := DecodeAll(lines);
    forall k | 0 <= k < |ts|
      ensures results[k] == Ok(Task(ts[k].id, ts[k].description, ts[k].priority, StrayBool(ts[k].completed)))
    {
      assert ',' !in ts[k].description && ',' !in ts[k].priority by {
        assert ts[k] in ts;
      }
      assert results[k] == DecodeLine(EncodeLine(ts[k]) + "\n") by {
        DecodeAllAt(lines, k);
      }
      DecodeEncodeLine(ts[k]);
    }
    assert forall k :: 0 <= k < |results| ==> results[k].Ok?;
  }

  /**
   * Saving to a file and loading it again keeps the number, order, ids,
   * descriptions and priorities of tasks whose texts are plain fields, but
   * every task comes back incomplete and without a due date.
   */
  lemma LoadSaveRoundTrip(ts: seq<Task>)
    requires forall t :: t in ts ==> IsPlainField(t.description) && IsPlainField(t.priority)
    ensures LoadTasks(ReadLines(SaveText(ts))).Ok?
    ensures |LoadTasks(ReadLines(SaveText(ts))).value| == |ts|
    ensures forall k :: 0 <= k < |ts| ==>
      LoadTasks(ReadLines(SaveText(ts))).value[k] == ts[k].(dueDate := NoDueDate, completed := false)
  {
    ReadSavedText(ts);
    LoadSavedLines(ts);
  }

  /**
   * Two tasks, the first saved as completed, come back from the file in order
   * with their ids, descriptions and priorities, and the first is no longer
   * completed.
   */
  lemma CompletionLostOnReload(first: string, second: string, p: string, q: string)
    requires IsPlainField(first) && IsPlainField(second) && IsPlainField(p) && IsPlainField(q)
    ensures LoadTasks(ReadLines(SaveText([Task(1, first, p, completed := true), Task(2, second, q)])))
      == Ok([Task(1, first, p), Task(2, second, q)])
  {
    var ts := [Task(1, first, p, completed := true), Task(2, second, q)];
    LoadSaveRoundTrip(ts);
    var loaded := LoadTasks(ReadLines(SaveText(ts))).value;
    assert loaded == [loaded[0], loaded[1]];
  }
}
