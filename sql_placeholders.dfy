/** The `#{name}` placeholders of a mapper statement.  The statement text is
    scanned left to right with the pattern `(#\{(.*?)\})` (a lazy match that,
    like Java's `.`, does not cross a line terminator); each match is numbered
    from 1, its inner name recorded, and every occurrence of the match's text
    in the statement replaced by `?`.  The scan runs over the original text,
    the replacements over the evolving copy. */
module SqlPlaceholders {
  import opened Base

  /** Java's line terminators, which `.` does not match. */
  predicate IsLineTerminator(c: char)
  {
    c == '\n' || c == '\r' || c == '\U{0085}' || c == '\U{2028}' || c == '\U{2029}'
  }

  /** After the `#{`: the index of the first `}` if it comes before any line
      terminator. */
  function Close(t: string): (q: Option<nat>)
    ensures q.Some? ==> q.value < |t| && t[q.value] == '}'
    ensures q.Some? ==> forall k | 0 <= k < q.value :: t[k] != '}' && !IsLineTerminator(t[k])
  {
    if t == [] || IsLineTerminator(t[0]) then None
    else if t[0] == '}' then Some(0)
    else match Close(t[1..])
      case None => None
      case Some(q) => Some(q + 1)
  }

  /** One `matcher.find()` on the text t: group 1, group 2 and the index just
      past the match. */
  datatype Match = Match(whole: string, name: string, end: nat)

  function NextMatch(t: string): (m: Option<Match>)
    ensures m.Some? ==> 3 <= m.value.end <= |t|
    ensures m.Some? ==> m.value.whole == "#{" + m.value.name + "}"
  {
    if |t| < 2 then None
    else if t[0] == '#' && t[1] == '{' && Close(t[2..]).Some? then
      var q := Close(t[2..]).value;
      assert t[..q + 3] == "#{" + t[2..q + 2] + "}";
      Some(Match(t[..q + 3], t[2..q + 2], q + 3))
    else match NextMatch(t[1..])
      case None => None
      case Some(m) => Some(m.(end := m.end + 1))
  }

  /** All matches of the pattern in t, in order: (group 1, group 2). */
  function Scan(t: string): (r: seq<(string, string)>)
    ensures NonEmptyTargets(r)
    decreases |t|
  {
    match NextMatch(t)
    case None => []
    case Some(m) => [(m.whole, m.name)] + Scan(t[m.end..])
  }

  /** `String.replace(target, replacement)`: every non-overlapping
      occurrence, from the left. */
  function ReplaceAll(s: string, target: string, replacement: string): string
    requires |target| > 0
    decreases |s|
  {
    if |s| < |target| then s
    else if s[..|target|] == target then replacement + ReplaceAll(s[|target|..], target, replacement)
    else [s[0]] + ReplaceAll(s[1..], target, replacement)
  }

  /** The statement after the replacements for the matches `ms`, in order. */
  function Rewritten(sql: string, ms: seq<(string, string)>): string
    requires NonEmptyTargets(ms)
  {
    if ms == [] then sql
    else ReplaceAll(Rewritten(sql, ms[..|ms| - 1]), ms[|ms| - 1].0, "?")
  }

  lemma ScanWhole(t: string)
    ensures forall k | 0 <= k < |Scan(t)| :: Scan(t)[k].0 == "#{" + Scan(t)[k].1 + "}"
    decreases |t|
  {
    match NextMatch(t)
    case None =>
    case Some(m) => ScanWhole(t[m.end..]);
  }

  /** The parameter map for the matches ms: match k (from 1) to its name. */
  function Numbered(ms: seq<(string, string)>): (p: map<int, string>)
    ensures forall k :: k in p <==> 1 <= k <= |ms|
    ensures forall k | 1 <= k <= |ms| :: p[k] == ms[k - 1].1
  {
    if ms == [] then map[] else Numbered(ms[..|ms| - 1])[|ms| := ms[|ms| - 1].1]
  }

  lemma NumberedSnoc(ms: seq<(string, string)>, m: (string, string))
    ensures Numbered(ms + [m]) == Numbered(ms)[|ms| + 1 := m.1]
  {
    var ns := ms + [m];
    assert |ns| == |ms| + 1 && ns[|ns| - 1] == m;
    assert ns[..|ns| - 1] == ms;
  }

  lemma RewrittenSnoc(sql: string, ms: seq<(string, string)>, m: (string, string))
    requires NonEmptyTargets(ms) && |m.0| > 0
    ensures NonEmptyTargets(ms + [m])
    ensures Rewritten(sql, ms + [m]) == ReplaceAll(Rewritten(sql, ms), m.0, "?")
  {
    assert (ms + [m])[..|ms|] == ms;
  }

  /** The placeholder loop of `getMapperElement`: the parameter map numbers
      the matches 1..n with their names, and the statement is rewritten by
      replacing each match's text in turn. */
  method RewritePlaceholders(sql: string) returns (rewritten: string, parameter: map<int, string>)
    ensures NonEmptyTargets(Scan(sql)) && rewritten == Rewritten(sql, Scan(sql))
    ensures parameter == Numbered(Scan(sql))
  {
    var rest := sql;
    rewritten, parameter := sql, map[];
    ghost var done: seq<(string, string)> := [];
    var i := 1;
    while NextMatch(rest).Some?
      invariant Scan(sql) == done + Scan(rest)
      invariant i == |done| + 1
      invariant NonEmptyTargets(done)
      invariant rewritten == Rewritten(sql, done)
      invariant parameter == Numbered(done)
      decreases |rest|
    {
      var m := NextMatch(rest).value;
      NumberedSnoc(done, (m.whole, m.name));
      RewrittenSnoc(sql, done, (m.whole, m.name));
      parameter := parameter[i := m.name];
      rewritten := ReplaceAll(rewritten, m.whole, "?");
      ScanStep(rest);
      SnocAppend(done, (m.whole, m.name), Scan(rest[m.end..]));
      done := done + [(m.whole, m.name)];
      rest := rest[m.end..];
      i := i + 1;
    }
    assert Scan(rest) == [];
    assert done == Scan(sql);
  }

  predicate NonEmptyTargets(ms: seq<(string, string)>)
  {
    forall k | 0 <= k < |ms| :: |ms[k].0| > 0
  }

  lemma SnocAppend<T>(a: seq<T>, x: T, b: seq<T>)
    ensures a + ([x] + b) == (a + [x]) + b
  {
  }

  lemma ScanStep(t: string)
    requires NextMatch(t).Some?
    ensures var m := NextMatch(t).value; Scan(t) == [(m.whole, m.name)] + Scan(t[m.end..])
  {
  }

  /** A statement as a template: literal text, `#{name}` placeholders and the
      `?` markers that replace them. */
  datatype Piece = Text(text: string) | Hole(name: string) | Marker

  function RenderPiece(p: Piece): string
  {
    match p
    case Text(t) => t
    case Hole(n) => "#{" + n + "}"
    case Marker => "?"
  }

  function Render(ps: seq<Piece>): string
  {
    if ps == [] then "" else RenderPiece(ps[0]) + Render(ps[1..])
  }

  predicate NoHash(s: string)
  {
    forall k | 0 <= k < |s| :: s[k] != '#'
  }

  /** A name the pattern reads back whole: no `#`, no `}`, no line break. */
  predicate GoodName(n: string)
  {
    forall k | 0 <= k < |n| :: n[k] != '#' && n[k] != '}' && !IsLineTerminator(n[k])
  }

  predicate GoodPiece(p: Piece)
  {
    match p
    case Text(t) => NoHash(t)
    case Hole(n) => GoodName(n)
    case Marker => true
  }

  /** Text without `#` and placeholders with good names. */
  predicate WellFormed(ps: seq<Piece>)
  {
    forall k | 0 <= k < |ps| :: GoodPiece(ps[k])
  }

  /** The matches a template's placeholders should produce, in order. */
  function Holes(ps: seq<Piece>): seq<(string, string)>
  {
    if ps == [] then []
    else if ps[0].Hole? then [("#{" + ps[0].name + "}", ps[0].name)] + Holes(ps[1..])
    else Holes(ps[1..])
  }

  /** The template with the placeholders named in ns turned into markers. */
  function MarkNames(ps: seq<Piece>, ns: set<string>): (r: seq<Piece>)
    ensures |r| == |ps|
  {
    if ps == [] then []
    else [if ps[0].Hole? && ps[0].name in ns then Marker else ps[0]] + MarkNames(ps[1..], ns)
  }

  function NamesOf(ms: seq<(string, string)>): set<string>
  {
    set k | 0 <= k < |ms| :: ms[k].1
  }

  lemma ScanSkip(s: string)
    requires |s| > 0 && s[0] != '#'
    ensures Scan(s) == Scan(s[1..])
  {
    if |s| >= 2 {
      NextMatchSkip(s);
      var n := NextMatch(s[1..]);
      if n.Some? {
        var m := n.value;
        assert s[1..][m.end..] == s[m.end + 1..];
        assert Scan(s[1..]) == [(m.whole, m.name)] + Scan(s[m.end + 1..]);
      }
    } else {
      assert NextMatch(s) == None && NextMatch(s[1..]) == None;
    }
  }

  /** A match never starts at a character other than `#`. */
  lemma NextMatchSkip(s: string)
    requires |s| >= 2 && s[0] != '#'
    ensures NextMatch(s) == (match NextMatch(s[1..]) case None => None case Some(m) => Some(m.(end := m.end + 1)))
  {
  }

  lemma {:induction false} ScanSkipText(t: string, r: string)
    requires NoHash(t)
    ensures Scan(t + r) == Scan(r)
  {
    if t != [] {
      assert (t + r)[0] == t[0] != '#';
      ScanSkip(t + r);
      assert (t + r)[1..] == t[1..] + r;
      assert NoHash(t[1..]) by {
        forall k | 0 <= k < |t[1..]| ensures t[1..][k] != '#' {
          assert t[1..][k] == t[k + 1];
        }
      }
      ScanSkipText(t[1..], r);
    } else {
      assert t + r == r;
    }
  }

  lemma {:induction false} CloseName(n: string, r: string)
    requires GoodName(n)
    ensures Close(n + "}" + r) == Some(|n|)
  {
    if n != [] {
      assert (n + "}" + r)[1..] == n[1..] + "}" + r;
      CloseName(n[1..], r);
    }
  }

  lemma ScanHole(n: string, r: string)
    requires GoodName(n)
    ensures Scan("#{" + n + "}" + r) == [("#{" + n + "}", n)] + Scan(r)
  {
    var s := "#{" + n + "}" + r;
    assert s[2..] == n + "}" + r;
    CloseName(n, r);
    assert s[..|n| + 3] == "#{" + n + "}";
    assert s[2..|n| + 2] == n;
    assert s[|n| + 3..] == r;
  }

  /** A well-formed template's placeholders are exactly what the scan finds. */
  lemma {:induction false} ScanRender(ps: seq<Piece>)
    requires WellFormed(ps)
    ensures Scan(Render(ps)) == Holes(ps)
  {
    if ps != [] {
      assert GoodPiece(ps[0]);
      ScanRender(ps[1..]);
      match ps[0]
      case Text(t) => ScanSkipText(t, Render(ps[1..]));
      case Marker => ScanSkipText("?", Render(ps[1..]));
      case Hole(n) =>
        assert Render(ps) == "#{" + n + "}" + Render(ps[1..]);
        ScanHole(n, Render(ps[1..]));
    }
  }

  lemma {:induction false} ReplaceSkip(c: string, r: string, t: string)
    requires NoHash(c) && |t| > 0 && t[0] == '#'
    ensures ReplaceAll(c + r, t, "?") == c + ReplaceAll(r, t, "?")
    decreases |c|, 1
  {
    if c == [] {
      assert c + r == r;
    } else if |c + r| < |t| {
      ReplaceShort(c + r, t);
      ReplaceShort(r, t);
    } else {
      ReplaceSkipLong(c, r, t);
    }
  }

  /** `ReplaceSkip` when the text is at least as long as the target. */
  lemma {:induction false} ReplaceSkipLong(c: string, r: string, t: string)
    requires NoHash(c) && |t| > 0 && t[0] == '#' && c != [] && |c + r| >= |t|
    ensures ReplaceAll(c + r, t, "?") == c + ReplaceAll(r, t, "?")
    decreases |c|, 0
  {
    assert (c + r)[..|t|][0] == c[0] != t[0];
    ReplaceHeadMiss(c + r, t);
    assert (c + r)[1..] == c[1..] + r;
    NoHashTail(c);
    ReplaceSkip(c[1..], r, t);
    assert [c[0]] + (c[1..] + ReplaceAll(r, t, "?")) == c + ReplaceAll(r, t, "?");
  }

  lemma NoHashTail(c: string)
    requires NoHash(c) && c != []
    ensures NoHash(c[1..])
  {
    forall k | 0 <= k < |c[1..]| ensures c[1..][k] != '#' {
      assert c[1..][k] == c[k + 1];
    }
  }

  /** Two good names differ, so the placeholder text of one is not a prefix
      of a string that starts with the placeholder of the other. */
  lemma OtherHoleNoMatch(m: string, n: string, r: string)
    requires GoodName(m) && GoodName(n) && m != n
    requires |"#{" + m + "}" + r| >= |"#{" + n + "}"|
    ensures ("#{" + m + "}" + r)[..|"#{" + n + "}"|] != "#{" + n + "}"
  {
    var s := "#{" + m + "}" + r;
    var t := "#{" + n + "}";
    if |m| < |n| {
      assert s[|m| + 2] == '}' && t[|m| + 2] == n[|m|] != '}';
    } else if |n| < |m| {
      assert t[|n| + 2] == '}' && s[|n| + 2] == m[|n|] != '}';
    } else {
      assert s[2..|m| + 2] == m && t[2..|n| + 2] == n;
    }
  }

  lemma ReplaceSameHole(n: string, r: string)
    ensures ReplaceAll("#{" + n + "}" + r, "#{" + n + "}", "?") == "?" + ReplaceAll(r, "#{" + n + "}", "?")
  {
    var s := "#{" + n + "}" + r;
    var t := "#{" + n + "}";
    assert s[..|t|] == t && s[|t|..] == r;
  }

  lemma ReplaceOtherHole(m: string, n: string, r: string)
    requires GoodName(m) && GoodName(n) && m != n
    ensures ReplaceAll("#{" + m + "}" + r, "#{" + n + "}", "?") == "#{" + m + "}" + ReplaceAll(r, "#{" + n + "}", "?")
  {
    if |"#{" + m + "}" + r| < |"#{" + n + "}"| {
      ReplaceShort("#{" + m + "}" + r, "#{" + n + "}");
      ReplaceShort(r, "#{" + n + "}");
    } else {
      ReplaceOtherHoleLong(m, n, r);
    }
  }

  /** `ReplaceOtherHole` when the text is at least as long as the target. */
  lemma ReplaceOtherHoleLong(m: string, n: string, r: string)
    requires GoodName(m) && GoodName(n) && m != n
    requires |"#{" + m + "}" + r| >= |"#{" + n + "}"|
    ensures ReplaceAll("#{" + m + "}" + r, "#{" + n + "}", "?") == "#{" + m + "}" + ReplaceAll(r, "#{" + n + "}", "?")
  {
    var s := "#{" + m + "}" + r;
    var t := "#{" + n + "}";
    var u := "{" + m + "}";
    OtherHoleNoMatch(m, n, r);
    ReplaceHeadMiss(s, t);
    assert s[1..] == u + r;
    BraceNoHash(m);
    ReplaceSkip(u, r, t);
    var rr := ReplaceAll(r, t, "?");
    calc {
      ReplaceAll(s, t, "?");
      [s[0]] + ReplaceAll(u + r, t, "?");
      [s[0]] + (u + rr);
      { assert "#{" + m + "}" == [s[0]] + u; }
      "#{" + m + "}" + rr;
    }
  }

  /** A text shorter than the target is left alone. */
  lemma ReplaceShort(s: string, t: string)
    requires |s| < |t|
    ensures ReplaceAll(s, t, "?") == s
  {
  }

  /** Braces around a good name hold no `#`. */
  lemma BraceNoHash(m: string)
    requires GoodName(m)
    ensures NoHash("{" + m + "}")
  {
    var u := "{" + m + "}";
    forall k | 0 <= k < |u| ensures u[k] != '#' {
      if 0 < k < |u| - 1 {
        assert u[k] == m[k - 1];
      }
    }
  }

  /** Where the target does not start, the first character is kept. */
  lemma ReplaceHeadMiss(s: string, t: string)
    requires |t| > 0 && |s| >= |t| && s[..|t|] != t
    ensures ReplaceAll(s, t, "?") == [s[0]] + ReplaceAll(s[1..], t, "?")
  {
  }

  /** One replacement turns exactly the placeholders with that name into
      markers. */
  lemma {:induction false} ReplaceRender(ps: seq<Piece>, n: string, ns: set<string>)
    requires WellFormed(ps) && GoodName(n)
    ensures ReplaceAll(Render(MarkNames(ps, ns)), "#{" + n + "}", "?") == Render(MarkNames(ps, ns + {n}))
  {
    var t := "#{" + n + "}";
    if ps == [] {
    } else {
      assert GoodPiece(ps[0]);
      var rest := Render(MarkNames(ps[1..], ns));
      ReplaceRender(ps[1..], n, ns);
      var p := if ps[0].Hole? && ps[0].name in ns then Marker else ps[0];
      assert MarkNames(ps, ns)[1..] == MarkNames(ps[1..], ns);
      assert MarkNames(ps, ns + {n})[1..] == MarkNames(ps[1..], ns + {n});
      assert Render(MarkNames(ps, ns)) == RenderPiece(p) + rest;
      match p
      case Text(c) => ReplaceSkip(c, rest, t);
      case Marker => ReplaceSkip("?", rest, t);
      case Hole(m) =>
        if m == n {
          ReplaceSameHole(n, rest);
        } else {
          ReplaceOtherHole(m, n, rest);
        }
    }
  }

  lemma {:induction false} RewrittenRender(ps: seq<Piece>, ms: seq<(string, string)>)
    requires WellFormed(ps)
    requires forall k | 0 <= k < |ms| :: GoodName(ms[k].1) && ms[k].0 == "#{" + ms[k].1 + "}"
    ensures NonEmptyTargets(ms)
    ensures Rewritten(Render(ps), ms) == Render(MarkNames(ps, NamesOf(ms)))
  {
    if ms == [] {
      MarkNone(ps);
      assert NamesOf(ms) == {};
    } else {
      var init := ms[..|ms| - 1];
      var last := ms[|ms| - 1];
      RewrittenRender(ps, init);
      ReplaceRender(ps, last.1, NamesOf(init));
      assert NamesOf(ms) == NamesOf(init) + {last.1} by {
        forall x | x in NamesOf(ms) ensures x in NamesOf(init) + {last.1} {
          var k :| 0 <= k < |ms| && ms[k].1 == x;
          if k < |ms| - 1 {
            assert init[k].1 == x;
          }
        }
      }
    }
  }

  lemma {:induction false} MarkNone(ps: seq<Piece>)
    ensures MarkNames(ps, {}) == ps
  {
    if ps != [] {
      MarkNone(ps[1..]);
    }
  }

  /** The template with every placeholder replaced by a marker. */
  function AllMarked(ps: seq<Piece>): seq<Piece>
  {
    if ps == [] then [] else [if ps[0].Hole? then Marker else ps[0]] + AllMarked(ps[1..])
  }

  /** For a well-formed statement the placeholder loop finds its placeholders
      in order, numbers their names from 1 and leaves the text with a `?` in
      place of each placeholder. */
  lemma TemplateRewrite(ps: seq<Piece>)
    requires WellFormed(ps)
    ensures Scan(Render(ps)) == Holes(ps)
    ensures NonEmptyTargets(Holes(ps))
    ensures Rewritten(Render(ps), Holes(ps)) == Render(AllMarked(ps))
  {
    ScanRender(ps);
    HolesGood(ps);
    RewrittenRender(ps, Holes(ps));
    HoleNamesListed(ps);
    MarkAllHoles(ps, NamesOf(Holes(ps)));
  }

  lemma {:induction false} HolesGood(ps: seq<Piece>)
    requires WellFormed(ps)
    ensures forall k | 0 <= k < |Holes(ps)| :: GoodName(Holes(ps)[k].1) && Holes(ps)[k].0 == "#{" + Holes(ps)[k].1 + "}"
  {
    if ps != [] {
      assert GoodPiece(ps[0]);
      HolesGood(ps[1..]);
    }
  }

  lemma {:induction false} HoleNamesListed(ps: seq<Piece>)
    ensures forall k | 0 <= k < |ps| && ps[k].Hole? :: ps[k].name in NamesOf(Holes(ps))
  {
    if ps != [] {
      HoleNamesListed(ps[1..]);
      var h := Holes(ps);
      var t := Holes(ps[1..]);
      if ps[0].Hole? {
        assert h == [("#{" + ps[0].name + "}", ps[0].name)] + t;
        assert h[0].1 == ps[0].name;
        forall k | 0 <= k < |t| ensures t[k].1 in NamesOf(h) {
          assert h[k + 1] == t[k];
        }
      }
      forall k | 1 <= k < |ps| && ps[k].Hole? ensures ps[k].name in NamesOf(h) {
        assert ps[1..][k - 1] == ps[k];
      }
    }
  }

  /** Marking a set that holds every placeholder's name marks them all. */
  lemma {:induction false} MarkAllHoles(ps: seq<Piece>, ns: set<string>)
    requires forall k | 0 <= k < |ps| && ps[k].Hole? :: ps[k].name in ns
    ensures MarkNames(ps, ns) == AllMarked(ps)
  {
    if ps != [] {
      assert forall k | 0 <= k < |ps[1..]| && ps[1..][k].Hole? :: ps[1..][k].name in ns by {
        forall k | 0 <= k < |ps[1..]| && ps[1..][k].Hole? ensures ps[1..][k].name in ns {
          assert ps[1..][k] == ps[k + 1];
        }
      }
      MarkAllHoles(ps[1..], ns);
    }
  }
}
