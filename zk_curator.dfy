/** The ZooKeeper side of the task scheduler: creating a node together with
    its missing ancestors, shortest first, and the listener that turns a
    start/stop instruct written under the exec path into a schedule table
    change.  The ZooKeeper client is a set of existing node paths with their
    data; UTF-8 decoding and JSON parsing are the functions `decode` and
    `parse`. */
module ZkCurator {
  import opened Base
  import opened TaskTypes
  import opened TaskSchedule

  /** `lastIndexOf(c)`: the last position holding c, or -1. */
  function LastIndexOf(s: string, c: char): (i: int)
    ensures -1 <= i < |s|
    ensures i >= 0 ==> s[i] == c
    ensures forall k | i < k < |s| :: s[k] != c
  {
    if s == [] then -1
    else if s[|s| - 1] == c then |s| - 1
    else LastIndexOf(s[..|s| - 1], c)
  }

  /** `indexOf(c)`: the first position holding c, or -1. */
  function IndexOf(s: string, c: char): (i: int)
    ensures -1 <= i < |s|
    ensures i >= 0 ==> s[i] == c && forall k | 0 <= k < i :: s[k] != c
    ensures i < 0 ==> forall k | 0 <= k < |s| :: s[k] != c
  {
    if s == [] then -1
    else if s[0] == c then 0
    else
      var j := IndexOf(s[1..], c);
      if j < 0 then -1 else j + 1
  }

  /** The paths `createNode` visits: the path itself, then each path cut at
      its last "/" while that "/" is past the first position. */
  function Ancestors(path: string): (ps: seq<string>)
    ensures ps != [] && ps[0] == path
    decreases |path|
  {
    var i := LastIndexOf(path, '/');
    if i > 0 then [path] + Ancestors(path[..i]) else [path]
  }

  /** Each element is its predecessor cut at the predecessor's last "/",
      hence a strict prefix of it; the last one has no "/" past position 0. */
  lemma {:induction false} AncestorsChain(path: string)
    ensures var ps := Ancestors(path);
      && (forall k | 0 <= k < |ps| - 1 ::
            LastIndexOf(ps[k], '/') > 0 && ps[k + 1] == ps[k][..LastIndexOf(ps[k], '/')] && ps[k + 1] < ps[k])
      && LastIndexOf(ps[|ps| - 1], '/') <= 0
    decreases |path|
  {
    var i := LastIndexOf(path, '/');
    var ps := Ancestors(path);
    if i > 0 {
      var qs := Ancestors(path[..i]);
      AncestorsChain(path[..i]);
      assert ps == [path] + qs;
      forall k | 0 <= k < |ps| - 1
        ensures LastIndexOf(ps[k], '/') > 0 && ps[k + 1] == ps[k][..LastIndexOf(ps[k], '/')] && ps[k + 1] < ps[k]
      {
        if k == 0 {
          assert ps[1] == qs[0] == path[..i];
        } else {
          assert ps[k] == qs[k - 1] && ps[k + 1] == qs[k];
        }
      }
      assert ps[|ps| - 1] == qs[|qs| - 1];
    } else {
      assert ps == [path];
    }
  }

  /** The list of a listed path is the rest of the list. */
  lemma {:induction false} AncestorsSuffix(path: string, k: nat)
    requires k < |Ancestors(path)|
    ensures Ancestors(Ancestors(path)[k]) == Ancestors(path)[k..]
    decreases |path|
  {
    var i := LastIndexOf(path, '/');
    if k > 0 {
      var ps := Ancestors(path);
      assert i > 0;
      AncestorsSuffix(path[..i], k - 1);
      assert ps[1..] == Ancestors(path[..i]);
      assert ps[k..] == ps[1..][k - 1..];
    }
  }

  /** Later elements are strictly shorter, so no path is listed twice. */
  lemma {:induction false} AncestorsShrink(path: string, j: nat, k: nat)
    requires j < k < |Ancestors(path)|
    ensures |Ancestors(path)[k]| < |Ancestors(path)[j]|
    decreases |path|
  {
    var i := LastIndexOf(path, '/');
    var ps := Ancestors(path);
    assert ps[1..] == Ancestors(path[..i]);
    if j > 0 {
      AncestorsShrink(path[..i], j - 1, k - 1);
    } else if k > 1 {
      AncestorsShrink(path[..i], 0, k - 1);
    }
  }

  /** The example of the source: "/aric/zhu" gives itself and "/aric". */
  lemma AncestorsExample()
    ensures Ancestors("/aric/zhu") == ["/aric/zhu", "/aric"]
  {
    var p := "/aric/zhu";
    assert p[5] == '/' && p[6] != '/' && p[7] != '/' && p[8] != '/';
    assert LastIndexOf(p, '/') == 5;
    var q := "/aric";
    assert p[..5] == q;
    assert q[0] == '/' && q[1] != '/' && q[2] != '/' && q[3] != '/' && q[4] != '/';
    assert LastIndexOf(q, '/') == 0;
  }

  /** The last "/" of a path is the one before a last segment without "/". */
  lemma {:induction false} LastIndexOfBeforeSegment(parent: string, name: string)
    requires '/' !in name
    ensures LastIndexOf(parent + "/" + name, '/') == |parent|
    decreases |name|
  {
    var s := parent + "/" + name;
    if name != [] {
      var name' := name[..|name| - 1];
      assert name[|name| - 1] in name;
      assert s[..|s| - 1] == parent + "/" + name';
      assert '/' !in name' by {
        forall k | 0 <= k < |name'| ensures name'[k] != '/' {
          assert name'[k] == name[k];
        }
      }
      LastIndexOfBeforeSegment(parent, name');
    }
  }

  /** Appending a segment without "/" to a non-empty parent puts the new path
      in front of the parent's list. */
  lemma AncestorsOfChild(parent: string, name: string)
    requires parent != [] && '/' !in name
    ensures Ancestors(parent + "/" + name) == [parent + "/" + name] + Ancestors(parent)
  {
    LastIndexOfBeforeSegment(parent, name);
    assert (parent + "/" + name)[..|parent|] == parent;
  }

  /** A top-level path is its own list. */
  lemma AncestorsOfTop(name: string)
    requires '/' !in name
    ensures Ancestors("/" + name) == ["/" + name]
  {
    LastIndexOfBeforeSegment("", name);
    assert "" + "/" + name == "/" + name;
  }

  /** The first loop of `createNode`. */
  method AncestorPaths(path: string) returns (pathChild: seq<string>)
    ensures pathChild == Ancestors(path)
  {
    var p := path;
    pathChild := [p];
    while LastIndexOf(p, '/') > 0
      invariant pathChild != [] && pathChild[|pathChild| - 1] == p
      invariant pathChild + Ancestors(p)[1..] == Ancestors(path)
      decreases |p|
    {
      var i := LastIndexOf(p, '/');
      assert Ancestors(p)[1..] == Ancestors(p[..i]);
      p := p[..i];
      pathChild := pathChild + [p];
      assert Ancestors(p) == [p] + Ancestors(p)[1..];
    }
  }

  function Reverse<T>(s: seq<T>): (r: seq<T>)
    ensures |r| == |s|
  {
    if s == [] then [] else Reverse(s[1..]) + [s[0]]
  }

  /** The elements of `ps` not in `present`, in order. */
  function Missing(ps: seq<string>, present: set<string>): seq<string>
  {
    if ps == [] then []
    else Missing(ps[..|ps| - 1], present) + (if ps[|ps| - 1] in present then [] else [ps[|ps| - 1]])
  }

  function Elems(ps: seq<string>): set<string>
  {
    set q | q in ps
  }

  /** `n` is `p` or a path below it. */
  predicate InSubtree(n: string, p: string)
  {
    n == p || (|p| < |n| && n[..|p| + 1] == p + "/")
  }

  /** The data a missing parent gets from `creatingParentsIfNeeded`: empty. */
  function ParentData(created: set<string>): (m: map<string, string>)
    ensures m.Keys == created && forall n | n in m :: m[n] == ""
  {
    map n | n in created :: ""
  }

  /** The nodes `createNode` creates below `present`, each holding `d`. */
  function DefaultFor(ps: set<string>, present: set<string>, d: string): (m: map<string, string>)
    ensures m.Keys == ps - present && forall n | n in m :: m[n] == d
  {
    map n | n in ps - present :: d
  }

  /** A ZooKeeper ensemble seen through one Curator client: the existing
      node paths, their data, the `create` calls made and the client's
      default data (for a client from `CuratorFrameworkFactory.newClient`,
      the local host address), which a node created without data holds. */
  class ZkClient {
    var nodes: set<string>
    var data: map<string, string>
    var created: seq<string>
    const defaultData: string

    constructor(nodes: set<string>, defaultData: string)
      ensures this.nodes == nodes && data == map[] && created == [] && this.defaultData == defaultData
    {
      this.nodes := nodes;
      this.defaultData := defaultData;
      data := map[];
      created := [];
    }

    /** `checkExists().forPath(p) != null`. */
    method CheckExists(p: string) returns (b: bool)
      ensures b <==> p in nodes
    {
      b := p in nodes;
    }

    /** `create().creatingParentsIfNeeded().forPath(p)`: an existing node is
        refused (`NodeExistsException`, reported as `ok == false`) and
        nothing changes; otherwise the node and its missing parents exist
        afterwards, the node holds the default data and each missing parent
        holds empty data. */
    method Create(p: string) returns (ok: bool)
      modifies this
      ensures ok <==> p !in old(nodes)
      ensures ok ==> nodes == old(nodes) + Elems(Ancestors(p)) && created == old(created) + [p]
      ensures ok ==> data == (old(data) + ParentData(Elems(Ancestors(p)) - old(nodes) - {p}))[p := defaultData]
      ensures !ok ==> nodes == old(nodes) && created == old(created) && data == old(data)
    {
      if p in nodes {
        return false;
      }
      data := (data + ParentData(Elems(Ancestors(p)) - nodes - {p}))[p := defaultData];
      nodes := nodes + Elems(Ancestors(p));
      created := created + [p];
      return true;
    }

    /** `setData`: only an existing node takes data. */
    method SetData(p: string, d: string)
      modifies this
      ensures nodes == old(nodes) && created == old(created)
      ensures data == if p in old(nodes) then old(data)[p := d] else old(data)
    {
      if p in nodes {
        data := data[p := d];
      }
    }

    /** `delete().deletingChildrenIfNeeded().forPath(p)`: the node and every
        node below it go, with their data. */
    method DeleteSubtree(p: string)
      modifies this
      ensures nodes == set n | n in old(nodes) && !InSubtree(n, p)
      ensures data == map n | n in old(data) && !InSubtree(n, p) :: old(data)[n]
      ensures created == old(created)
    {
      nodes := set n | n in nodes && !InSubtree(n, p);
      data := map n | n in data && !InSubtree(n, p) :: data[n];
    }
  }

  lemma CreateStep(pathChild: seq<string>, i: nat)
    requires i < |pathChild|
    ensures Reverse(pathChild[i..]) == Reverse(pathChild[i + 1..]) + [pathChild[i]]
    ensures Elems(pathChild[i..]) == Elems(pathChild[i + 1..]) + {pathChild[i]}
  {
    assert pathChild[i..][1..] == pathChild[i + 1..];
    assert pathChild[i..] == [pathChild[i]] + pathChild[i + 1..];
  }

  lemma MissingSnoc(ps: seq<string>, p: string, present: set<string>)
    ensures Missing(ps + [p], present) == Missing(ps, present) + (if p in present then [] else [p])
  {
    assert (ps + [p])[..|ps|] == ps;
  }

  /** What visiting `pathChild[i]` needs: it is not among the shorter paths
      already visited, and its own list is the rest of the list. */
  lemma VisitStep(path: string, pathChild: seq<string>, i: nat, present: set<string>)
    requires pathChild == Ancestors(path) && i < |pathChild|
    ensures pathChild[i] !in Elems(pathChild[i + 1..])
    ensures Elems(pathChild[i..]) == Elems(pathChild[i + 1..]) + {pathChild[i]}
    ensures Elems(Ancestors(pathChild[i])) == Elems(pathChild[i..])
    ensures Missing(Reverse(pathChild[i..]), present)
         == Missing(Reverse(pathChild[i + 1..]), present) + (if pathChild[i] in present then [] else [pathChild[i]])
  {
    CreateStep(pathChild, i);
    MissingSnoc(Reverse(pathChild[i + 1..]), pathChild[i], present);
    forall k | i < k < |pathChild|
      ensures pathChild[k] != pathChild[i]
    {
      AncestorsShrink(path, i, k);
    }
    AncestorsSuffix(path, i);
  }

  /** The body of `createNode`'s second loop: create `p` when it is absent. */
  method Visit(client: ZkClient, p: string, ghost present: set<string>, ghost visited: set<string>)
    requires client.nodes == present + visited && p !in visited
    requires Elems(Ancestors(p)) == visited + {p}
    modifies client
    ensures client.nodes == present + visited + {p}
    ensures client.created == old(client.created) + (if p in present then [] else [p])
    ensures client.data == if p in present then old(client.data) else old(client.data)[p := client.defaultData]
  {
    var stat := client.CheckExists(p);
    if !stat {
      assert Elems(Ancestors(p)) - client.nodes - {p} == {};
      assert ParentData({}) == map[];
      assert client.data + map[] == client.data;
      var ok := client.Create(p);
    }
  }

  /** One turn of `createNode`'s second loop, at index i of the list. */
  method VisitAt(client: ZkClient, path: string, pathChild: seq<string>, i: nat,
                 ghost present: set<string>, ghost created: seq<string>)
    requires pathChild == Ancestors(path) && i < |pathChild|
    requires client.nodes == present + Elems(pathChild[i + 1..])
    requires client.created == created + Missing(Reverse(pathChild[i + 1..]), present)
    modifies client
    ensures client.nodes == present + Elems(pathChild[i..])
    ensures client.created == created + Missing(Reverse(pathChild[i..]), present)
    ensures client.data == if pathChild[i] in present then old(client.data)
                           else old(client.data)[pathChild[i] := client.defaultData]
  {
    VisitStep(path, pathChild, i, present);
    Visit(client, pathChild[i], present, Elems(pathChild[i + 1..]));
  }

  /** `createNode`: every listed path exists afterwards; the ones that did
      not exist are created, shortest first, each once, and each of them
      holds the client's default data (its parents already exist when it is
      created); the data of the other nodes is unchanged. */
  method CreateNode(client: ZkClient, path: string)
    modifies client
    ensures client.nodes == old(client.nodes) + Elems(Ancestors(path))
    ensures client.created == old(client.created) + Missing(Reverse(Ancestors(path)), old(client.nodes))
    ensures client.data == old(client.data) + DefaultFor(Elems(Ancestors(path)), old(client.nodes), client.defaultData)
  {
    ghost var present := client.nodes;
    ghost var created := client.created;
    var pathChild := AncestorPaths(path);
    var i := |pathChild| - 1;
    assert pathChild[i + 1..] == [];
    while i >= 0
      invariant -1 <= i < |pathChild|
      invariant client.nodes == present + Elems(pathChild[i + 1..])
      invariant client.created == created + Missing(Reverse(pathChild[i + 1..]), present)
      invariant client.data == old(client.data) + DefaultFor(Elems(pathChild[i + 1..]), present, client.defaultData)
    {
      ghost var before := client.data;
      VisitAt(client, path, pathChild, i, present, created);
      CreateNodeData(old(client.data), before, client.data, pathChild, i, present, client.defaultData);
      i := i - 1;
    }
    assert pathChild[0..] == pathChild;
  }

  lemma CreateNodeData(data0: map<string, string>, before: map<string, string>, after: map<string, string>,
                       pathChild: seq<string>, i: nat, present: set<string>, d: string)
    requires i < |pathChild|
    requires Elems(pathChild[i..]) == Elems(pathChild[i + 1..]) + {pathChild[i]}
    requires before == data0 + DefaultFor(Elems(pathChild[i + 1..]), present, d)
    requires after == if pathChild[i] in present then before else before[pathChild[i] := d]
    ensures after == data0 + DefaultFor(Elems(pathChild[i..]), present, d)
  {
    var x := pathChild[i];
    var m := DefaultFor(Elems(pathChild[i + 1..]), present, d);
    DefaultForAdd(Elems(pathChild[i + 1..]), x, present, d);
    if x !in present {
      assert (data0 + m)[x := d] == data0 + m[x := d];
    }
  }

  /** Adding one path to the created set adds at most its own default. */
  lemma DefaultForAdd(ps: set<string>, x: string, present: set<string>, d: string)
    ensures DefaultFor(ps + {x}, present, d) ==
      if x in present then DefaultFor(ps, present, d) else DefaultFor(ps, present, d)[x := d]
  {
    var m := DefaultFor(ps, present, d);
    var want := if x in present then m else m[x := d];
    assert DefaultFor(ps + {x}, present, d).Keys == want.Keys;
  }

  /** `deletingChildrenIfNeeded` (and `deleteNodeSimple`): an existing node
      is deleted together with everything below it; otherwise nothing
      happens. */
  method DeletingChildrenIfNeeded(client: ZkClient, path: string)
    modifies client
    ensures path in old(client.nodes) ==>
      && client.nodes == (set n | n in old(client.nodes) && !InSubtree(n, path))
      && client.data == (map n | n in old(client.data) && !InSubtree(n, path) :: old(client.data)[n])
    ensures path !in old(client.nodes) ==> client.nodes == old(client.nodes) && client.data == old(client.data)
    ensures client.created == old(client.created)
  {
    var present := client.CheckExists(path);
    if !present {
      return;
    }
    client.DeleteSubtree(path);
  }

  /** The listener's text gate: non-empty, "{" first and the last "}" at the end. */
  predicate JsonShaped(json: string)
  {
    json != "" && IndexOf(json, '{') == 0 && LastIndexOf(json, '}') + 1 == |json|
  }

  /** The gate accepts exactly the texts of at least two characters that
      open with "{" and close with "}". */
  lemma JsonShapedIff(json: string)
    ensures JsonShaped(json) <==> |json| >= 2 && json[0] == '{' && json[|json| - 1] == '}'
  {
    if |json| >= 2 && json[0] == '{' && json[|json| - 1] == '}' {
      assert IndexOf(json, '{') == 0;
      assert LastIndexOf(json, '}') == |json| - 1;
    }
  }

  /** A tree event: without data, or with data whose bytes may be null. */
  datatype TreeEvent = NoData | WithData(bytes: Option<seq<byte>>)

  /** What one event does. */
  datatype ListenerOutcome =
    | Ignored                                   // the callback returns early
    | Failed                                    // an exception escapes the callback
    | Started(runnable: TaskRunnable, cron: string)
    | Stopped(taskId: string)

  /** The first task whose method name equals `methodName` (a null name
      matches none). */
  function FirstTask(execTasks: seq<ExecTask>, methodName: Option<string>): (t: Option<ExecTask>)
    ensures t.None? <==> forall k | 0 <= k < |execTasks| :: Some(execTasks[k].methodName) != methodName
    ensures t.Some? ==> exists k | 0 <= k < |execTasks| ::
      && execTasks[k] == t.value && Some(t.value.methodName) == methodName
      && forall j | 0 <= j < k :: Some(execTasks[j].methodName) != methodName
  {
    if execTasks == [] then None
    else if Some(execTasks[0].methodName) == methodName then Some(execTasks[0])
    else
      var t := FirstTask(execTasks[1..], methodName);
      if t.Some? then
        assert forall k | 1 <= k < |execTasks| :: execTasks[k] == execTasks[1..][k - 1];
        t
      else t
  }

  /** The first-match loop of the listener. */
  method FindTask(execTasks: seq<ExecTask>, methodName: Option<string>) returns (execTask: Option<ExecTask>)
    ensures execTask == FirstTask(execTasks, methodName)
  {
    execTask := None;
    for i := 0 to |execTasks|
      invariant FirstTask(execTasks, methodName) == FirstTask(execTasks[i..], methodName)
    {
      assert execTasks[i..][1..] == execTasks[i + 1..];
      if Some(execTasks[i].methodName) == methodName {
        execTask := Some(execTasks[i]);
        return;
      }
    }
  }

  /** The listener callback on one event. */
  function Route(event: TreeEvent, decode: seq<byte> -> string, parse: string -> Option<Instruct>,
                 localIp: string, execTaskListMap: map<string, seq<ExecTask>>): ListenerOutcome
  {
    if event.NoData? || event.bytes.None? || |event.bytes.value| < 1 then Ignored
    else
      var json := decode(event.bytes.value);
      if !JsonShaped(json) then Ignored
      else if parse(json).None? then Failed
      else
        var instruct := parse(json).value;
        if instruct.ip != Some(localIp) then Ignored
        else if instruct.beanName.None? then Failed
        else if instruct.beanName.value !in execTaskListMap then Ignored
        else
          var execTask := FirstTask(execTaskListMap[instruct.beanName.value], instruct.methodName);
          if execTask.None? then Ignored
          else if instruct.status then
            Started(TaskRunnable(execTask.value.bean, instruct.beanName.value, execTask.value.methodName), execTask.value.cron)
          else Stopped(instruct.beanName.value + "_" + execTask.value.methodName)
  }

  /** The listener changes the schedule only for a well-shaped instruct
      addressed to this host that names a known bean and one of its task
      methods; a start then schedules the first such task on its own cron,
      and a stop removes the id of that bean and method. */
  lemma RouteActs(event: TreeEvent, decode: seq<byte> -> string, parse: string -> Option<Instruct>,
                  localIp: string, execTaskListMap: map<string, seq<ExecTask>>)
    ensures var o := Route(event, decode, parse, localIp, execTaskListMap);
      (o.Started? || o.Stopped?) <==>
        && event.WithData? && event.bytes.Some? && |event.bytes.value| >= 1
        && JsonShaped(decode(event.bytes.value))
        && parse(decode(event.bytes.value)).Some?
        && var instruct := parse(decode(event.bytes.value)).value;
        && instruct.ip == Some(localIp)
        && instruct.beanName.Some? && instruct.beanName.value in execTaskListMap
        && exists k | 0 <= k < |execTaskListMap[instruct.beanName.value]| ::
             Some(execTaskListMap[instruct.beanName.value][k].methodName) == instruct.methodName
    ensures var o := Route(event, decode, parse, localIp, execTaskListMap);
      o.Started? ==>
        var instruct := parse(decode(event.bytes.value)).value;
        var tasks := execTaskListMap[instruct.beanName.value];
        && instruct.status
        && exists k | 0 <= k < |tasks| ::
          && o == Started(TaskRunnable(tasks[k].bean, instruct.beanName.value, tasks[k].methodName), tasks[k].cron)
          && Some(tasks[k].methodName) == instruct.methodName
          && forall j | 0 <= j < k :: Some(tasks[j].methodName) != instruct.methodName
    ensures var o := Route(event, decode, parse, localIp, execTaskListMap);
      o.Stopped? ==>
        var instruct := parse(decode(event.bytes.value)).value;
        !instruct.status && o.taskId == instruct.beanName.value + "_" + instruct.methodName.value
  {
  }

  /** The callback of `addTreeCacheListener`, applied to the schedule table. */
  method OnEvent(ctrl: TaskScheduleCtrl, event: TreeEvent, decode: seq<byte> -> string,
                 parse: string -> Option<Instruct>, localIp: string, execTaskListMap: map<string, seq<ExecTask>>)
    returns (outcome: ListenerOutcome)
    modifies ctrl
    ensures outcome == Route(event, decode, parse, localIp, execTaskListMap)
    ensures outcome.Started? ==> ctrl.taskScheduledMap == Add(old(ctrl.taskScheduledMap), outcome.runnable, outcome.cron)
    ensures outcome.Stopped? ==> ctrl.taskScheduledMap == Remove(old(ctrl.taskScheduledMap), outcome.taskId)
    ensures !outcome.Started? && !outcome.Stopped? ==> ctrl.taskScheduledMap == old(ctrl.taskScheduledMap)
  {
    if event.NoData? {
      return Ignored;
    }
    var eventData := event.bytes;
    if eventData.None? || |eventData.value| < 1 {
      return Ignored;
    }
    var json := decode(eventData.value);
    if json == "" || IndexOf(json, '{') != 0 || LastIndexOf(json, '}') + 1 != |json| {
      return Ignored;
    }
    var parsed := parse(json);
    if parsed.None? {
      return Failed;
    }
    var instruct := parsed.value;
    if Some(localIp) != instruct.ip {
      return Ignored;
    }
    var beanName := instruct.beanName;
    var methodName := instruct.methodName;
    if beanName.None? {
      return Failed;
    }
    if beanName.value !in execTaskListMap {
      return Ignored;
    }
    var execTasks := execTaskListMap[beanName.value];
    var execTask := FindTask(execTasks, methodName);
    if execTask.None? {
      return Ignored;
    }
    if instruct.status {
      var runnable := TaskRunnable(execTask.value.bean, beanName.value, methodName.value);
      ctrl.AddTaskSchedule(runnable, execTask.value.cron);
      outcome := Started(runnable, execTask.value.cron);
    } else {
      ctrl.RemoveTaskSchedule(beanName.value + "_" + methodName.value);
      outcome := Stopped(beanName.value + "_" + methodName.value);
    }
  }
}
