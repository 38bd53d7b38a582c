/** The whitelist gate (`WhiteListProcessAop.doRouter`): with the switch on
    and a key configured on the annotation, the call goes ahead only when the
    argument named by the key is one of the comma-separated users. */
module WhiteList {
  import opened Base
  import opened Common

  /** Every piece of `s` between commas, empty pieces included; there is one
      more piece than there are commas. */
  function SplitAll(s: string): (ps: seq<string>)
    ensures |ps| >= 1
  {
    if s == [] then [""]
    else if s[0] == ',' then [""] + SplitAll(s[1..])
    else
      var rest := SplitAll(s[1..]);
      [[s[0]] + rest[0]] + rest[1..]
  }

  /** The pieces rejoined with commas. */
  function JoinComma(ps: seq<string>): string
    requires |ps| >= 1
  {
    if |ps| == 1 then ps[0] else ps[0] + "," + JoinComma(ps[1..])
  }

  /** No piece holds a comma, and joining the pieces gives `s` back. */
  lemma {:induction false} SplitAllJoin(s: string)
    ensures forall k | 0 <= k < |SplitAll(s)| :: ',' !in SplitAll(s)[k]
    ensures JoinComma(SplitAll(s)) == s
  {
    if s != [] {
      SplitAllJoin(s[1..]);
      var rest := SplitAll(s[1..]);
      if s[0] == ',' {
        assert SplitAll(s)[1..] == rest;
        assert s == [s[0]] + s[1..];
      } else {
        var ps := SplitAll(s);
        assert ps[1..] == rest[1..];
        assert ps[0] == [s[0]] + rest[0];
        if |rest| == 1 {
          assert s == [s[0]] + rest[0];
        } else {
          assert JoinComma(rest) == rest[0] + "," + JoinComma(rest[1..]);
          assert s == [s[0]] + s[1..];
        }
      }
    }
  }

  /** `ps` without its trailing empty pieces. */
  function DropTrailingEmpty(ps: seq<string>): (r: seq<string>)
    ensures |r| <= |ps| && r == ps[..|r|]
    ensures r != [] ==> r[|r| - 1] != ""
    ensures forall k | |r| <= k < |ps| :: ps[k] == ""
  {
    if ps == [] then []
    else if ps[|ps| - 1] == "" then DropTrailingEmpty(ps[..|ps| - 1])
    else ps
  }

  /** Java's `String.split(",")`: a string without a comma is its own only
      piece (so "" gives [""]); otherwise the pieces between commas, with the
      trailing empty ones removed. */
  function JavaSplit(s: string): (ps: seq<string>)
  {
    if ',' !in s then [s] else DropTrailingEmpty(SplitAll(s))
  }

  /** The pieces are the pieces between commas with only trailing empty ones
      dropped, and none of them holds a comma. */
  lemma JavaSplitPieces(s: string)
    ensures var ps := JavaSplit(s); var all := SplitAll(s);
      && |ps| <= |all| && ps == all[..|ps|]
      && (forall k | |ps| <= k < |all| :: all[k] == "")
      && (forall k | 0 <= k < |ps| :: ',' !in ps[k])
  {
    SplitAllJoin(s);
    if ',' !in s {
      assert JavaSplit(s) == [s];
    }
  }

  /** `ArrayUtil.contains(users.split(","), value)`: the value is a string
      equal to one of the pieces. */
  predicate Listed(value: Value, users: string)
  {
    value.StrV? && value.str in JavaSplit(users)
  }

  /** The position of the first parameter named `key`, if any. */
  function FirstNamed(argNames: seq<string>, key: string): (i: Option<nat>)
    ensures i.Some? ==>
      (i.value < |argNames| && argNames[i.value] == key && forall k | 0 <= k < i.value :: argNames[k] != key)
    ensures i.None? ==> key !in argNames
  {
    if argNames == [] then None
    else if argNames[0] == key then Some(0)
    else
      var j := FirstNamed(argNames[1..], key);
      if j.None? then None else Some(j.value + 1)
  }

  /** The parameter search of `doRouter`: the first parameter named `key`
      decides; if there is none the call proceeds. */
  function Search(key: string, argNames: seq<string>, argValues: seq<Value>, users: string): Outcome
    requires |argValues| == |argNames|
  {
    if argNames == [] then Proceed
    else if key == argNames[0] then
      (if Listed(argValues[0], users) then Proceed else Thrown(BizFromErrorCode(WHITE_LIST_ERROR)))
    else Search(key, argNames[1..], argValues[1..], users)
  }

  /** `doRouter`. The argument values come from the same call as the
      parameter names, so there is one per name. */
  function DoRouter(isOpen: bool, key: string, argNames: seq<string>, argValues: seq<Value>, users: string): Outcome
    requires |argValues| == |argNames|
  {
    if !isOpen then Proceed
    else if key == "" then Proceed
    else Search(key, argNames, argValues, users)
  }

  /** The search is decided by the first parameter named `key` alone. */
  lemma {:induction false} SearchFirstNamed(key: string, argNames: seq<string>, argValues: seq<Value>, users: string)
    requires |argValues| == |argNames|
    ensures var i := FirstNamed(argNames, key);
      Search(key, argNames, argValues, users) ==
        if i.None? then Proceed
        else if Listed(argValues[i.value], users) then Proceed
        else Thrown(BizFromErrorCode(WHITE_LIST_ERROR))
  {
    if argNames != [] && key != argNames[0] {
      SearchFirstNamed(key, argNames[1..], argValues[1..], users);
    }
  }

  /** The gate lets the call through exactly when the switch is off, no key
      is configured, no parameter carries the key's name, or the first one
      that does holds a listed user; otherwise it throws the whitelist error. */
  lemma DoRouterIff(isOpen: bool, key: string, argNames: seq<string>, argValues: seq<Value>, users: string)
    requires |argValues| == |argNames|
    ensures var o := DoRouter(isOpen, key, argNames, argValues, users);
      var i := FirstNamed(argNames, key);
      && (o.Proceed? <==> !isOpen || key == "" || i.None? || Listed(argValues[i.value], users))
      && (!o.Proceed? ==> o == Thrown(BizFromErrorCode(WHITE_LIST_ERROR)))
  {
    if isOpen && key != "" {
      SearchFirstNamed(key, argNames, argValues, users);
    }
  }

  lemma Step(s: string, t: string)
    requires s != [] && s[1..] == t
    ensures SplitAll(s) == if s[0] == ',' then [""] + SplitAll(t) else [[s[0]] + SplitAll(t)[0]] + SplitAll(t)[1..]
  {
  }

  lemma SplitAllLetter(c: char)
    requires c != ','
    ensures SplitAll([c]) == [[c]]
  {
    assert [c][1..] == "";
    assert [c] + "" == [c];
  }

  /** Two users give two pieces. */
  lemma JavaSplitTwo()
    ensures JavaSplit("a,b") == ["a", "b"]
  {
    SplitAllLetter('b');
    Step(",b", "b");
    assert SplitAll(",b") == ["", "b"];
    Step("a,b", ",b");
    assert ['a'] + "" == "a" && ["", "b"][1..] == ["b"];
    assert SplitAll("a,b") == ["a", "b"];
    assert "a,b"[1] == ',';
  }

  /** Trailing empty pieces go, inner ones stay. */
  lemma JavaSplitTrailing()
    ensures JavaSplit("a,,b,,") == ["a", "", "b"]
  {
    assert SplitAll("") == [""];
    Step(",", "");
    Step(",,", ",");
    assert SplitAll(",,") == ["", "", ""];
    Step("b,,", ",,");
    assert ['b'] + "" == "b" && ["", "", ""][1..] == ["", ""];
    assert SplitAll("b,,") == ["b", "", ""];
    Step(",b,,", "b,,");
    assert SplitAll(",b,,") == ["", "b", "", ""];
    Step(",,b,,", ",b,,");
    assert SplitAll(",,b,,") == ["", "", "b", "", ""];
    assert ['a'] + "" == "a";
    var all := ["a", "", "b", "", ""];
    Step("a,,b,,", ",,b,,");
    assert ["", "", "b", "", ""][1..] == ["", "b", "", ""];
    assert SplitAll("a,,b,,") == all;
    assert "a,,b,,"[1] == ',';
    assert all[..4] == ["a", "", "b", ""] && all[..4][..3] == ["a", "", "b"];
    assert DropTrailingEmpty(all) == DropTrailingEmpty(all[..4]);
    assert DropTrailingEmpty(all[..4]) == DropTrailingEmpty(all[..4][..3]);
  }

  /** A leading empty piece stays; the empty text is one empty user; a lone
      comma gives no user at all. */
  lemma JavaSplitEdges()
    ensures JavaSplit(",a") == ["", "a"]
    ensures JavaSplit("") == [""]
    ensures JavaSplit(",") == []
  {
    SplitAllLetter('a');
    Step(",a", "a");
    assert SplitAll(",a") == ["", "a"];
    assert ",a"[0] == ',';
    assert SplitAll("") == [""];
    Step(",", "");
    assert SplitAll(",") == ["", ""];
    assert ","[0] == ',';
    assert ["", ""][..1] == [""] && [""][..0] == [];
  }
}
