/** The mini-ORM session: binding a statement's parameters, running it over
    an abstract JDBC connection, and turning the rows into objects by calling
    one setter per column.  The JDBC driver is the function `execute` of a
    `Connection`; reflection is a table of classes with their setters. */
module SqlSession {
  import opened Base
  import opened SqlBuilder

  /** The JDBC setter a binding uses. */
  datatype SqlType = SqlShort | SqlInt | SqlLong | SqlString | SqlDate

  /** One `preparedStatement.setXxx(index, value)` call. */
  datatype Binding = Binding(index: int, sqlType: SqlType, value: Value)

  datatype SessionError =
    | NullPointer                             // a method called on null
    | ClassCast                               // a java.util.Date cast to java.sql.Date
    | IndexOutOfBounds                        // substring of an empty name, get(0) of an empty list
    | ClassNotFound(className: string)
    | NoSuchMethod(methodName: string, parameterType: string)
    | SqlFailure(message: string)
    | ConnectionClosed                        // the SQLException of prepareStatement on a closed connection

  /** The values `buildSqlParameter` binds directly, without looking inside. */
  predicate IsSimple(v: Value)
  {
    v.ShortV? || v.IntV? || v.LongV? || v.StrV? || v.DateV?
  }

  /** A date that the cast to `java.sql.Date` rejects. */
  predicate NonSqlDate(v: Value)
  {
    v.DateV? && !v.sqlDate
  }

  /** `setParameter2Sql`: the binding made for value `v` at index `i`; other
      types, `null` included, are silently skipped. */
  function BindOne(i: int, v: Value): (r: Try<Option<Binding>, SessionError>)
    ensures r.Err? <==> NonSqlDate(v)
    ensures r.Err? ==> r.error == ClassCast
    ensures r == Ok(None) <==> !IsSimple(v)
    ensures r.Ok? && r.value.Some? ==> r.value.value.index == i && r.value.value.value == v
  {
    match v
    case ShortV(_) => Ok(Some(Binding(i, SqlShort, v)))
    case IntV(_) => Ok(Some(Binding(i, SqlInt, v)))
    case LongV(_) => Ok(Some(Binding(i, SqlLong, v)))
    case StrV(_) => Ok(Some(Binding(i, SqlString, v)))
    case DateV(sql, _) => if sql then Ok(Some(Binding(i, SqlDate, v))) else Err(ClassCast)
    case _ => Ok(None)
  }

  /** The binding `BindOne` makes, as a sequence of at most one. */
  function Bound(i: int, v: Value): seq<Binding>
  {
    match BindOne(i, v) case Ok(Some(b)) => [b] case _ => []
  }

  /** The bindings made for `vs[0], vs[1], ...` at indices 1, 2, ...: one
      per value of a supported type. */
  function Bindings(vs: seq<Value>): seq<Binding>
  {
    if vs == [] then []
    else
      Bindings(vs[..|vs| - 1]) + Bound(|vs|, vs[|vs| - 1])
  }

  lemma BindingsSnoc(vs: seq<Value>, v: Value)
    ensures Bindings(vs + [v]) == Bindings(vs) + Bound(|vs| + 1, v)
  {
    var w := vs + [v];
    assert w[..|w| - 1] == vs && w[|w| - 1] == v;
    assert Bindings(w) == Bindings(w[..|w| - 1]) + Bound(|w|, w[|w| - 1]);
  }

  /** Every binding is made at an index 1..|vs| with the value found there,
      and that value has a supported type. */
  lemma {:induction false} BindingsSound(vs: seq<Value>)
    ensures forall b :: b in Bindings(vs) ==>
      1 <= b.index <= |vs| && b.value == vs[b.index - 1] && IsSimple(b.value)
  {
    if vs != [] {
      var init := vs[..|vs| - 1];
      BindingsSound(init);
      assert forall k :: 0 <= k < |init| ==> init[k] == vs[k];
    }
  }

  /** Every value of a supported type is bound at its index. */
  lemma {:induction false} BindingsComplete(vs: seq<Value>, k: int)
    requires 0 <= k < |vs| && IsSimple(vs[k]) && !NonSqlDate(vs[k])
    ensures BindOne(k + 1, vs[k]).value.value in Bindings(vs)
  {
    var init := vs[..|vs| - 1];
    if k < |vs| - 1 {
      assert init[k] == vs[k];
      BindingsComplete(init, k);
    }
  }

  /** When every value has a supported type, index j + 1 is bound, in order,
      to `vs[j]`. */
  lemma {:induction false} BindingsAllSimple(vs: seq<Value>)
    requires forall k :: 0 <= k < |vs| ==> IsSimple(vs[k]) && !NonSqlDate(vs[k])
    ensures |Bindings(vs)| == |vs|
    ensures forall j :: 0 <= j < |vs| ==> Bindings(vs)[j].index == j + 1 && Bindings(vs)[j].value == vs[j]
  {
    if vs != [] {
      var init := vs[..|vs| - 1];
      assert forall k :: 0 <= k < |init| ==> init[k] == vs[k];
      BindingsAllSimple(init);
    }
  }

  /** `getDeclaredFields()` of a non-simple parameter with the field values:
      a bean's declared fields; other values are taken to have none. */
  function DeclaredFields(v: Value): seq<(string, Value)>
  {
    if v.ObjV? then v.fields else []
  }

  /** What `parameterValueMap.get(parameterMap.get(i))` yields: null for a
      missing slot or a missing field. */
  function FieldValue(fieldMap: map<string, Value>, parameterMap: map<int, string>, i: int): Value
  {
    if i in parameterMap && parameterMap[i] in fieldMap then fieldMap[parameterMap[i]] else Null
  }

  /** The value bound at index `i`. */
  function ValueAt(parameter: Value, parameterMap: map<int, string>, i: int): Value
  {
    if IsSimple(parameter) then parameter
    else FieldValue(Assoc(DeclaredFields(parameter)), parameterMap, i)
  }

  /** The values bound at indices 1..n. */
  function ArgumentValues(parameter: Value, parameterMap: map<int, string>, n: nat): (r: seq<Value>)
    ensures |r| == n
  {
    if n == 0 then [] else ArgumentValues(parameter, parameterMap, n - 1) + [ValueAt(parameter, parameterMap, n)]
  }

  /** Position k holds the value for index k + 1. */
  lemma {:induction false} ArgumentValueAt(parameter: Value, parameterMap: map<int, string>, n: nat, k: nat)
    requires k < n
    ensures ArgumentValues(parameter, parameterMap, n)[k] == ValueAt(parameter, parameterMap, k + 1)
  {
    if k < n - 1 {
      ArgumentValueAt(parameter, parameterMap, n - 1, k);
    }
  }

  /** `buildSqlParameter`: the bindings for every index 1..size of the
      statement's parameter map, or the failure. */
  function Plan(parameter: Value, parameterMap: map<int, string>): Try<seq<Binding>, SessionError>
  {
    var vs := ArgumentValues(parameter, parameterMap, |parameterMap|);
    if parameter.Null? then Err(NullPointer)
    else if exists k :: 0 <= k < |vs| && NonSqlDate(vs[k]) then Err(ClassCast)
    else Ok(Bindings(vs))
  }

  /** A simple parameter is bound, with its own value, to every index
      1..size and to nothing else. */
  lemma SimpleParameterBindsEveryIndex(parameter: Value, parameterMap: map<int, string>)
    requires IsSimple(parameter) && !NonSqlDate(parameter)
    ensures Plan(parameter, parameterMap).Ok?
    ensures var bs := Plan(parameter, parameterMap).value;
      && |bs| == |parameterMap|
      && forall j :: 0 <= j < |bs| ==> bs[j].index == j + 1 && bs[j].value == parameter
  {
    var vs := ArgumentValues(parameter, parameterMap, |parameterMap|);
    forall k | 0 <= k < |vs|
      ensures vs[k] == parameter
    {
      ArgumentValueAt(parameter, parameterMap, |parameterMap|, k);
    }
    BindingsAllSimple(vs);
  }

  /** A `java.util.Date` that is not a `java.sql.Date` fails the whole
      binding with a cast error. */
  lemma NonSqlDateFails(parameter: Value, parameterMap: map<int, string>, i: int)
    requires !parameter.Null? && 1 <= i <= |parameterMap|
    requires NonSqlDate(ValueAt(parameter, parameterMap, i))
    ensures Plan(parameter, parameterMap) == Err(ClassCast)
  {
    ArgumentValueAt(parameter, parameterMap, |parameterMap|, i - 1);
  }

  /** An index whose slot or field is missing, or whose value is null or of
      an unsupported type, gets no binding. */
  lemma UnsupportedValueNotBound(parameter: Value, parameterMap: map<int, string>, i: int)
    requires Plan(parameter, parameterMap).Ok?
    requires 1 <= i <= |parameterMap|
    requires !IsSimple(ValueAt(parameter, parameterMap, i))
    ensures forall b :: b in Plan(parameter, parameterMap).value ==> b.index != i
  {
    var vs := ArgumentValues(parameter, parameterMap, |parameterMap|);
    BindingsSound(vs);
    ArgumentValueAt(parameter, parameterMap, |parameterMap|, i - 1);
  }

  /** An object parameter binds at index i the value of the field named by
      slot i, exactly when that value has a supported type. */
  lemma ObjectParameterBindsFields(parameter: Value, parameterMap: map<int, string>, i: int)
    requires parameter.ObjV?
    requires Plan(parameter, parameterMap).Ok?
    requires 1 <= i <= |parameterMap|
    ensures var v := FieldValue(Assoc(parameter.fields), parameterMap, i);
      IsSimple(v) <==> exists b :: b in Plan(parameter, parameterMap).value && b.index == i && b.value == v
  {
    var vs := ArgumentValues(parameter, parameterMap, |parameterMap|);
    var v := FieldValue(Assoc(parameter.fields), parameterMap, i);
    ArgumentValueAt(parameter, parameterMap, |parameterMap|, i - 1);
    BindingsSound(vs);
    if IsSimple(v) {
      BindingsComplete(vs, i - 1);
    }
  }

  /** A prepared statement records the setter calls made on it. */
  class PreparedStatement {
    const sql: string
    var bindings: seq<Binding>

    constructor(sql: string)
      ensures this.sql == sql && bindings == []
    {
      this.sql := sql;
      bindings := [];
    }

    method Set(b: Binding)
      modifies this
      ensures bindings == old(bindings) + [b]
    {
      bindings := bindings + [b];
    }
  }

  method SetParameter2Sql(preparedStatement: PreparedStatement, i: int, parameter: Value)
    returns (err: Option<SessionError>)
    modifies preparedStatement
    ensures err == (if NonSqlDate(parameter) then Some(ClassCast) else None)
    ensures preparedStatement.bindings == old(preparedStatement.bindings) + Bound(i, parameter)
  {
    err := None;
    match parameter
    case ShortV(_) => preparedStatement.Set(Binding(i, SqlShort, parameter));
    case IntV(_) => preparedStatement.Set(Binding(i, SqlInt, parameter));
    case LongV(_) => preparedStatement.Set(Binding(i, SqlLong, parameter));
    case StrV(_) => preparedStatement.Set(Binding(i, SqlString, parameter));
    case DateV(sql, _) =>
      if sql {
        preparedStatement.Set(Binding(i, SqlDate, parameter));
      } else {
        err := Some(ClassCast);
      }
    case _ =>
  }

  lemma BindStep(parameter: Value, parameterMap: map<int, string>, i: int, value: Value)
    requires 1 <= i && value == ValueAt(parameter, parameterMap, i)
    ensures Bindings(ArgumentValues(parameter, parameterMap, i))
         == Bindings(ArgumentValues(parameter, parameterMap, i - 1)) + Bound(i, value)
  {
    BindingsSnoc(ArgumentValues(parameter, parameterMap, i - 1), value);
  }

  /** The first loop of `buildSqlParameter` over an object parameter: field
      name to field value, a later duplicate name winning. */
  method FieldValueMap(fields: seq<(string, Value)>) returns (parameterValueMap: map<string, Value>)
    ensures parameterValueMap == Assoc(fields)
  {
    parameterValueMap := map[];
    for j := 0 to |fields|
      invariant parameterValueMap == Assoc(fields[..j])
    {
      assert fields[..j + 1] == fields[..j] + [fields[j]];
      AssocSnoc(fields[..j], fields[j].0, fields[j].1);
      parameterValueMap := parameterValueMap[fields[j].0 := fields[j].1];
    }
    assert fields[..|fields|] == fields;
  }

  /** The binding loop of `buildSqlParameter`, over indices 1..size. */
  method BindIndices(preparedStatement: PreparedStatement, parameter: Value, parameterMap: map<int, string>,
                     parameterValueMap: map<string, Value>)
    returns (err: Option<SessionError>)
    requires !IsSimple(parameter) ==> parameterValueMap == Assoc(DeclaredFields(parameter))
    modifies preparedStatement
    ensures var vs := ArgumentValues(parameter, parameterMap, |parameterMap|);
      if exists k :: 0 <= k < |vs| && NonSqlDate(vs[k]) then err == Some(ClassCast)
      else err == None && preparedStatement.bindings == old(preparedStatement.bindings) + Bindings(vs)
  {
    var size := |parameterMap|;
    ghost var vs := ArgumentValues(parameter, parameterMap, size);
    ghost var done: seq<Value> := [];
    for i := 1 to size + 1
      invariant done == vs[..i - 1]
      invariant forall k :: 0 <= k < i - 1 ==> !NonSqlDate(vs[k])
      invariant preparedStatement.bindings == old(preparedStatement.bindings) + Bindings(done)
    {
      var value := if IsSimple(parameter) then parameter else FieldValue(parameterValueMap, parameterMap, i);
      ArgumentValueAt(parameter, parameterMap, size, i - 1);
      assert value == vs[i - 1];
      BindingsSnoc(done, value);
      err := SetParameter2Sql(preparedStatement, i, value);
      if err.Some? {
        return;
      }
      SeqAssoc(old(preparedStatement.bindings), Bindings(done), Bound(i, value));
      assert vs[..i] == vs[..i - 1] + [value];
      done := done + [value];
    }
    assert done == vs;
    return None;
  }

  method BuildSqlParameter(preparedStatement: PreparedStatement, parameter: Value, parameterMap: map<int, string>)
    returns (err: Option<SessionError>)
    modifies preparedStatement
    ensures match Plan(parameter, parameterMap)
      case Ok(bs) => err == None && preparedStatement.bindings == old(preparedStatement.bindings) + bs
      case Err(e) => err == Some(e)
  {
    if parameter.Null? {
      return Some(NullPointer);
    }
    var parameterValueMap: map<string, Value> := map[];
    if !IsSimple(parameter) {
      parameterValueMap := FieldValueMap(DeclaredFields(parameter));
    }
    err := BindIndices(preparedStatement, parameter, parameterMap, parameterValueMap);
  }

  /** ASCII upper-casing of one character. */
  function UpperChar(c: char): char
  {
    if 'a' <= c <= 'z' then (c as int - 32) as char else c
  }

  /** The setter `resultSet2Obj` calls for a column: "set", the first
      character upper-cased, then the rest of the column name; an empty
      column name fails in `substring`. */
  function SetterName(column: string): Try<string, SessionError>
  {
    if column == [] then Err(IndexOutOfBounds) else Ok("set" + [UpperChar(column[0])] + column[1..])
  }

  lemma SetterNameShape(column: string)
    ensures SetterName(column).Err? <==> column == []
    ensures column != [] ==>
      var s := SetterName(column).value;
      && |s| == |column| + 3
      && s[..3] == "set"
      && s[3] == UpperChar(column[0])
      && s[4..] == column[1..]
  {
    if column != [] {
      var s := SetterName(column).value;
      assert s[4..] == column[1..];
    }
  }

  /** Two columns share a setter exactly when they differ at most in the
      case of their first letter. */
  lemma SetterNamesCollide(c1: string, c2: string)
    requires c1 != [] && c2 != []
    ensures SetterName(c1) == SetterName(c2) <==> UpperChar(c1[0]) == UpperChar(c2[0]) && c1[1..] == c2[1..]
  {
    if SetterName(c1) == SetterName(c2) {
      SetterNameShape(c1);
      SetterNameShape(c2);
      var s := SetterName(c1).value;
      assert s[3] == UpperChar(c1[0]) && s[3] == UpperChar(c2[0]);
    }
  }

  /** What reflection knows about a result class: whether it has a no-argument
      constructor and which (setter name, parameter class) methods it has. */
  datatype ClassInfo = ClassInfo(name: string, instantiable: bool, setters: set<(string, string)>)

  /** A query result: the column names and one value per column in each row. */
  datatype ResultTable = ResultTable(columns: seq<string>, rows: seq<seq<Value>>)

  predicate Rectangular(t: ResultTable)
  {
    forall r :: 0 <= r < |t.rows| ==> |t.rows[r]| == |t.columns|
  }

  type Table = t: ResultTable | Rectangular(t) witness ResultTable([], [])

  /** A setter invocation on a freshly built result object. */
  datatype SetterCall = SetterCall(name: string, value: Value)

  /** A result object: its class and the setters called on it, in column order. */
  datatype Obj = Obj(cls: string, calls: seq<SetterCall>)

  /** The class `getMethod` is asked for: `LocalDateTime` for a date-time,
      otherwise the value's own class, which fails on null. */
  function SetterParameterClass(v: Value): Try<string, SessionError>
  {
    if v.LocalDateTimeV? then Ok("java.time.LocalDateTime")
    else if v.Null? then Err(NullPointer)
    else Ok(ClassName(v))
  }

  /** The setter call for one column of one row, or why it cannot be made. */
  function ColumnCall(cls: ClassInfo, column: string, v: Value): (r: Try<SetterCall, SessionError>)
    ensures r.Ok? <==> column != [] && !v.Null? && (SetterName(column).value, SetterParameterClass(v).value) in cls.setters
    ensures r.Ok? ==> r.value == SetterCall(SetterName(column).value, v)
  {
    match SetterName(column)
    case Err(e) => Err(e)
    case Ok(name) =>
      match SetterParameterClass(v)
      case Err(e) => Err(e)
      case Ok(paramClass) =>
        if (name, paramClass) in cls.setters then Ok(SetterCall(name, v))
        else Err(NoSuchMethod(name, paramClass))
  }

  /** The calls for the first `n` columns of a row. */
  function RowCalls(cls: ClassInfo, columns: seq<string>, row: seq<Value>, n: nat): (r: Try<seq<SetterCall>, SessionError>)
    requires n <= |columns| == |row|
    ensures r.Ok? <==> forall k :: 0 <= k < n ==> ColumnCall(cls, columns[k], row[k]).Ok?
    ensures r.Ok? ==> |r.value| == n && forall k :: 0 <= k < n ==> r.value[k] == ColumnCall(cls, columns[k], row[k]).value
  {
    if n == 0 then Ok([])
    else match RowCalls(cls, columns, row, n - 1)
      case Err(e) => Err(e)
      case Ok(calls) =>
        match ColumnCall(cls, columns[n - 1], row[n - 1])
        case Err(e) => Err(e)
        case Ok(c) => Ok(calls + [c])
  }

  /** The object built from one row. */
  function RowObject(cls: ClassInfo, columns: seq<string>, row: seq<Value>): Try<Obj, SessionError>
    requires |columns| == |row|
  {
    if !cls.instantiable then Err(NoSuchMethod("<init>", ""))
    else match RowCalls(cls, columns, row, |columns|)
      case Err(e) => Err(e)
      case Ok(calls) => Ok(Obj(cls.name, calls))
  }

  /** `resultSet2Obj` over the first `n` rows: one object per row, in order,
      or the first failure. */
  function Objects(cls: ClassInfo, t: Table, n: nat): (r: Try<seq<Obj>, SessionError>)
    requires n <= |t.rows|
    ensures r.Ok? <==> forall k :: 0 <= k < n ==> RowObject(cls, t.columns, t.rows[k]).Ok?
    ensures r.Ok? ==> |r.value| == n && forall k :: 0 <= k < n ==> r.value[k] == RowObject(cls, t.columns, t.rows[k]).value
  {
    if n == 0 then Ok([])
    else match Objects(cls, t, n - 1)
      case Err(e) => Err(e)
      case Ok(objs) =>
        match RowObject(cls, t.columns, t.rows[n - 1])
        case Err(e) => Err(e)
        case Ok(o) => Ok(objs + [o])
  }

  /** Each result object carries, for column k, a call of the setter named
      after column k with that row's value. */
  lemma ObjectsCallSetters(cls: ClassInfo, t: Table, r: nat, k: nat)
    requires Objects(cls, t, |t.rows|).Ok?
    requires r < |t.rows| && k < |t.columns|
    ensures var o := Objects(cls, t, |t.rows|).value[r];
      && o.cls == cls.name
      && |o.calls| == |t.columns|
      && o.calls[k] == SetterCall(SetterName(t.columns[k]).value, t.rows[r][k])
  {
    assert RowObject(cls, t.columns, t.rows[r]).Ok?;
  }

  lemma {:induction false} RowCallsSticky(cls: ClassInfo, columns: seq<string>, row: seq<Value>, m: nat, n: nat)
    requires m <= n <= |columns| == |row|
    requires RowCalls(cls, columns, row, m).Err?
    ensures RowCalls(cls, columns, row, n) == RowCalls(cls, columns, row, m)
  {
    if n > m {
      RowCallsSticky(cls, columns, row, m, n - 1);
    }
  }

  lemma {:induction false} ObjectsSticky(cls: ClassInfo, t: Table, m: nat, n: nat)
    requires m <= n <= |t.rows|
    requires Objects(cls, t, m).Err?
    ensures Objects(cls, t, n) == Objects(cls, t, m)
  {
    if n > m {
      ObjectsSticky(cls, t, m, n - 1);
    }
  }

  /** The body of the `while (resultSet.next())` loop: a new instance and
      one setter call per column. */
  method RowToObject(cls: ClassInfo, columns: seq<string>, row: seq<Value>) returns (r: Try<Obj, SessionError>)
    requires |columns| == |row|
    ensures r == RowObject(cls, columns, row)
  {
    if !cls.instantiable {
      return Err(NoSuchMethod("<init>", ""));
    }
    var calls: seq<SetterCall> := [];
    for i := 0 to |columns|
      invariant RowCalls(cls, columns, row, i) == Ok(calls)
    {
      var columnName := columns[i];
      var columnValue := row[i];
      if columnName == [] {
        RowCallsSticky(cls, columns, row, i + 1, |columns|);
        return Err(IndexOutOfBounds);
      }
      var setMethod := "set" + [UpperChar(columnName[0])] + columnName[1..];
      var paramClass;
      if columnValue.LocalDateTimeV? {
        paramClass := "java.time.LocalDateTime";
      } else if columnValue.Null? {
        RowCallsSticky(cls, columns, row, i + 1, |columns|);
        return Err(NullPointer);
      } else {
        paramClass := ClassName(columnValue);
      }
      if (setMethod, paramClass) !in cls.setters {
        RowCallsSticky(cls, columns, row, i + 1, |columns|);
        return Err(NoSuchMethod(setMethod, paramClass));
      }
      calls := calls + [SetterCall(setMethod, columnValue)];
    }
    r := Ok(Obj(cls.name, calls));
  }

  method ResultSet2Obj(t: Table, cls: ClassInfo) returns (r: Try<seq<Obj>, SessionError>)
    ensures r == Objects(cls, t, |t.rows|)
  {
    var list: seq<Obj> := [];
    var next := 0;
    while next < |t.rows|
      invariant 0 <= next <= |t.rows|
      invariant Objects(cls, t, next) == Ok(list)
    {
      var target := RowToObject(cls, t.columns, t.rows[next]);
      if target.Err? {
        assert Objects(cls, t, next + 1) == Err(target.error);
        ObjectsSticky(cls, t, next + 1, |t.rows|);
        return Err(target.error);
      }
      assert Objects(cls, t, next + 1) == Ok(list + [target.value]);
      list := list + [target.value];
      next := next + 1;
    }
    r := Ok(list);
  }

  /** A JDBC connection: `execute` runs a statement with its bindings. */
  class Connection {
    const execute: (string, seq<Binding>) -> Try<Table, string>
    var closed: bool

    constructor(execute: (string, seq<Binding>) -> Try<Table, string>)
      ensures this.execute == execute && !closed
    {
      this.execute := execute;
      closed := false;
    }

    method Close()
      modifies this
      ensures closed
    {
      closed := true;
    }
  }

  /** Running `statement`: the mapped statement, its bindings (when a
      parameter is given), the driver's result and the result objects, or
      the first failure. */
  function Query(connection: Connection?, mapperElement: map<string, XNode>, classes: map<string, ClassInfo>,
                 statement: string, parameter: Option<Value>): Try<seq<Obj>, SessionError>
    reads connection
  {
    if statement !in mapperElement || connection == null then Err(NullPointer)
    else if connection.closed then Err(ConnectionClosed)
    else
      var xNode := mapperElement[statement];
      var bindings := if parameter.Some? then Plan(parameter.value, xNode.parameter) else Ok([]);
      if bindings.Err? then Err(bindings.error)
      else match connection.execute(xNode.sql, bindings.value)
        case Err(message) => Err(SqlFailure(message))
        case Ok(t) =>
          if xNode.resultType.None? then Err(NullPointer)
          else if xNode.resultType.value !in classes then Err(ClassNotFound(xNode.resultType.value))
          else Objects(classes[xNode.resultType.value], t, |t.rows|)
  }

  /** Once the connection is closed every query fails: with the statement
      mapped, with the `SQLException` of `prepareStatement`. */
  lemma QueryAfterClose(connection: Connection, mapperElement: map<string, XNode>, classes: map<string, ClassInfo>,
                        statement: string, parameter: Option<Value>)
    requires connection.closed
    ensures Query(connection, mapperElement, classes, statement, parameter).Err?
    ensures statement in mapperElement ==>
      Query(connection, mapperElement, classes, statement, parameter) == Err(ConnectionClosed)
  {
  }

  class DefaultSqlSession {
    const connection: Connection?
    const mapperElement: map<string, XNode>

    constructor(connection: Connection?, mapperElement: map<string, XNode>)
      ensures this.connection == connection && this.mapperElement == mapperElement
    {
      this.connection := connection;
      this.mapperElement := mapperElement;
    }

    /** Runs the statement and returns the result objects, or the failure
        the `catch` swallows. */
    method Run(statement: string, parameter: Option<Value>, classes: map<string, ClassInfo>)
      returns (r: Try<seq<Obj>, SessionError>)
      ensures r == Query(connection, mapperElement, classes, statement, parameter)
    {
      if statement !in mapperElement || connection == null {
        return Err(NullPointer);
      }
      if connection.closed {
        return Err(ConnectionClosed);
      }
      var xNode := mapperElement[statement];
      var preparedStatement := new PreparedStatement(xNode.sql);
      if parameter.Some? {
        var err := BuildSqlParameter(preparedStatement, parameter.value, xNode.parameter);
        if err.Some? {
          return Err(err.value);
        }
      }
      assert preparedStatement.bindings == (if parameter.Some? then Plan(parameter.value, xNode.parameter) else Ok([])).value;
      var resultSet := connection.execute(preparedStatement.sql, preparedStatement.bindings);
      if resultSet.Err? {
        return Err(SqlFailure(resultSet.error));
      }
      if xNode.resultType.None? {
        return Err(NullPointer);
      }
      if xNode.resultType.value !in classes {
        return Err(ClassNotFound(xNode.resultType.value));
      }
      r := ResultSet2Obj(resultSet.value, classes[xNode.resultType.value]);
    }

    /** `selectOne`: the first result object; null for an empty result and
        for every failure. */
    method SelectOne(statement: string, parameter: Option<Value>, classes: map<string, ClassInfo>)
      returns (r: Option<Obj>)
      ensures var q := Query(connection, mapperElement, classes, statement, parameter);
        r == if q.Ok? && |q.value| > 0 then Some(q.value[0]) else None
    {
      var results := Run(statement, parameter, classes);
      if results.Err? || |results.value| == 0 {
        return None;
      }
      return Some(results.value[0]);
    }

    /** `selectList`: all result objects; the empty list on every failure. */
    method SelectList(statement: string, parameter: Option<Value>, classes: map<string, ClassInfo>)
      returns (r: seq<Obj>)
      ensures var q := Query(connection, mapperElement, classes, statement, parameter);
        r == if q.Ok? then q.value else []
    {
      var results := Run(statement, parameter, classes);
      if results.Err? {
        return [];
      }
      return results.value;
    }

    /** `close`: a null connection is left alone. */
    method Close()
      modifies if connection != null then {connection} else {}
      ensures connection != null ==> connection.closed
    {
      if connection != null {
        connection.Close();
      }
    }

    /** After `close`, `selectOne` answers null and `selectList` the empty
        list, whatever the statement. */
    method SelectAfterClose(statement: string, parameter: Option<Value>, classes: map<string, ClassInfo>)
      returns (one: Option<Obj>, many: seq<Obj>)
      requires connection != null
      modifies connection
      ensures connection.closed && one == None && many == []
    {
      Close();
      one := SelectOne(statement, parameter, classes);
      many := SelectList(statement, parameter, classes);
    }
  }
}
