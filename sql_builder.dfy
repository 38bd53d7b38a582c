/** Reading the mini-ORM's XML configuration: the data source properties and
    the mapper statements, keyed by `namespace.id`.  A parsed XML document is
    a tree of `Element`s; loading a mapper resource and parsing it is the
    function `load`. */
module SqlBuilder {
  import opened Base
  import opened SqlPlaceholders

  datatype Element = Element(name: string, attrs: map<string, string>, content: seq<Node>)

  /** A child of an element: an element or character data. */
  datatype Node = ElementNode(element: Element) | TextNode(text: string)

  /** `attributeValue(a)`: null when the attribute is absent. */
  function AttributeValue(e: Element, a: string): Option<string>
  {
    if a in e.attrs then Some(e.attrs[a]) else None
  }

  /** `getText()`: the element's own character data, in order. */
  function GetText(content: seq<Node>): string
  {
    if content == [] then ""
    else (if content[0].TextNode? then content[0].text else "") + GetText(content[1..])
  }

  /** `selectNodes("select")`: the child elements named `select`, in order. */
  function SelectNodes(content: seq<Node>): (r: seq<Element>)
    ensures forall k | 0 <= k < |r| :: r[k].name == "select"
  {
    if content == [] then []
    else
      var head := if content[0].ElementNode? && content[0].element.name == "select" then [content[0].element] else [];
      head + SelectNodes(content[1..])
  }

  /** Java string concatenation of a possibly null string. */
  function JavaString(s: Option<string>): string
  {
    if s.Some? then s.value else "null"
  }

  /** A mapped statement. */
  datatype XNode = XNode(
    namespace: Option<string>,
    id: Option<string>,
    parameterType: Option<string>,
    resultType: Option<string>,
    sql: string,
    parameter: map<int, string>)

  datatype BuildError =
    | NoElement                               // elementList.get(0) on an empty list
    | NotAnElement                            // a character-data child cast to Element
    | MissingResource(resource: Option<string>) // the mapper resource cannot be read

  /** The (name, value) puts of `getDataSource`, or the failing cast. */
  function PropertyPairs(content: seq<Node>): (r: Try<seq<(Option<string>, Option<string>)>, BuildError>)
    ensures r.Ok? ==> |r.value| == |content|
    ensures r.Err? <==> exists k | 0 <= k < |content| :: content[k].TextNode?
    ensures r.Err? ==> r.error == NotAnElement
  {
    if content == [] then Ok([])
    else if content[0].TextNode? then Err(NotAnElement)
    else
      var e := content[0].element;
      var rest := PropertyPairs(content[1..]);
      assert forall k | 1 <= k < |content| :: content[k] == content[1..][k - 1];
      if rest.Err? then rest
      else Ok([(AttributeValue(e, "name"), AttributeValue(e, "value"))] + rest.value)
  }

  /** `getDataSource`: the properties of the first element, the last of
      several with one name winning. */
  method GetDataSource(elementList: seq<Element>) returns (r: Try<map<Option<string>, Option<string>>, BuildError>)
    ensures elementList == [] ==> r == Err(NoElement)
    ensures elementList != [] ==>
      var pairs := PropertyPairs(elementList[0].content);
      && (pairs.Err? ==> r == Err(pairs.error))
      && (pairs.Ok? ==> r == Ok(Assoc(pairs.value)))
  {
    if elementList == [] {
      return Err(NoElement);
    }
    var content := elementList[0].content;
    var m: map<Option<string>, Option<string>> := map[];
    ghost var done: seq<(Option<string>, Option<string>)> := [];
    for i := 0 to |content|
      invariant PropertyPairs(content[..i]).Ok? && PropertyPairs(content[..i]).value == done
      invariant m == Assoc(done)
    {
      if content[i].TextNode? {
        PropertyPairsPrefix(content, i);
        return Err(NotAnElement);
      }
      var e := content[i].element;
      var name := AttributeValue(e, "name");
      var value := AttributeValue(e, "value");
      AssocSnoc(done, name, value);
      PropertyPairsSnoc(content, i);
      m := m[name := value];
      done := done + [(name, value)];
    }
    assert content[..|content|] == content;
    r := Ok(m);
  }

  lemma {:induction false} PropertyPairsAppend(a: seq<Node>, b: seq<Node>)
    requires PropertyPairs(a).Ok?
    ensures PropertyPairs(a + b).Ok? <==> PropertyPairs(b).Ok?
    ensures PropertyPairs(a + b).Ok? ==> PropertyPairs(a + b).value == PropertyPairs(a).value + PropertyPairs(b).value
  {
    if a != [] {
      assert (a + b)[1..] == a[1..] + b;
      assert (a + b)[0] == a[0];
      PropertyPairsAppend(a[1..], b);
      if PropertyPairs(a + b).Ok? {
        var h := [(AttributeValue(a[0].element, "name"), AttributeValue(a[0].element, "value"))];
        assert h + (PropertyPairs(a[1..]).value + PropertyPairs(b).value)
            == (h + PropertyPairs(a[1..]).value) + PropertyPairs(b).value;
      }
    } else {
      assert a + b == b;
    }
  }

  lemma PropertyPairsSnoc(content: seq<Node>, i: nat)
    requires i < |content| && content[i].ElementNode? && PropertyPairs(content[..i]).Ok?
    ensures PropertyPairs(content[..i + 1]).Ok?
    ensures PropertyPairs(content[..i + 1]).value == PropertyPairs(content[..i]).value
      + [(AttributeValue(content[i].element, "name"), AttributeValue(content[i].element, "value"))]
  {
    assert content[..i + 1] == content[..i] + [content[i]];
    PropertyPairsAppend(content[..i], [content[i]]);
  }

  lemma PropertyPairsPrefix(content: seq<Node>, i: nat)
    requires i < |content| && content[i].TextNode?
    ensures PropertyPairs(content).Err?
  {
  }

  /** The statements of one mapper document, keyed by `namespace.id`. */
  function SelectEntries(namespace: Option<string>, selects: seq<Element>): seq<(string, XNode)>
  {
    if selects == [] then []
    else
      var s := selects[0];
      var sql := GetText(s.content);
      [(JavaString(namespace) + "." + JavaString(AttributeValue(s, "id")),
        XNode(namespace, AttributeValue(s, "id"), AttributeValue(s, "parameterType"),
              AttributeValue(s, "resultType"), Rewritten(sql, Scan(sql)), Numbered(Scan(sql))))]
      + SelectEntries(namespace, selects[1..])
  }

  /** The statements of all mapper resources, in order, or the first failure. */
  function MapperEntries(mappers: seq<Node>, load: Option<string> -> Option<Element>)
    : Try<seq<(string, XNode)>, BuildError>
  {
    if mappers == [] then Ok([])
    else if mappers[0].TextNode? then Err(NotAnElement)
    else
      var resource := AttributeValue(mappers[0].element, "resource");
      match load(resource)
      case None => Err(MissingResource(resource))
      case Some(root) =>
        match MapperEntries(mappers[1..], load)
        case Err(e) => Err(e)
        case Ok(rest) => Ok(SelectEntries(AttributeValue(root, "namespace"), SelectNodes(root.content)) + rest)
  }

  function Statement(namespace: Option<string>, s: Element): (string, XNode)
  {
    var sql := GetText(s.content);
    (JavaString(namespace) + "." + JavaString(AttributeValue(s, "id")),
     XNode(namespace, AttributeValue(s, "id"), AttributeValue(s, "parameterType"),
           AttributeValue(s, "resultType"), Rewritten(sql, Scan(sql)), Numbered(Scan(sql))))
  }

  lemma {:induction false} SelectEntriesAppend(namespace: Option<string>, a: seq<Element>, b: seq<Element>)
    ensures SelectEntries(namespace, a + b) == SelectEntries(namespace, a) + SelectEntries(namespace, b)
  {
    if a == [] {
      assert a + b == b;
    } else {
      assert (a + b)[1..] == a[1..] + b;
      assert (a + b)[0] == a[0];
      SelectEntriesAppend(namespace, a[1..], b);
      SeqAssoc([Statement(namespace, a[0])], SelectEntries(namespace, a[1..]), SelectEntries(namespace, b));
    }
  }

  lemma SeqAssoc<T>(a: seq<T>, b: seq<T>, c: seq<T>)
    ensures a + (b + c) == (a + b) + c
  {
  }

  lemma PutStatementStep(namespace: Option<string>, selects: seq<Element>, j: nat, done: seq<(string, XNode)>)
    requires j < |selects|
    ensures Assoc(done + SelectEntries(namespace, selects[..j + 1]))
         == Assoc(done + SelectEntries(namespace, selects[..j]))[Statement(namespace, selects[j]).0 := Statement(namespace, selects[j]).1]
  {
    var st := Statement(namespace, selects[j]);
    assert selects[..j + 1] == selects[..j] + [selects[j]];
    SelectEntriesAppend(namespace, selects[..j], [selects[j]]);
    assert SelectEntries(namespace, [selects[j]]) == [st] + [];
    assert [st] + [] == [st];
    SeqAssoc(done, SelectEntries(namespace, selects[..j]), [st]);
    AssocSnoc(done + SelectEntries(namespace, selects[..j]), st.0, st.1);
  }

  /** The inner loop of `getMapperElement`: every `select` of one document is
      rewritten and put under `namespace.id`. */
  method PutStatements(namespace: Option<string>, selects: seq<Element>,
                       mapperElement: map<string, XNode>, ghost done: seq<(string, XNode)>)
    returns (result: map<string, XNode>)
    requires mapperElement == Assoc(done)
    ensures result == Assoc(done + SelectEntries(namespace, selects))
  {
    result := mapperElement;
    assert selects[..0] == [];
    assert done + SelectEntries(namespace, selects[..0]) == done;
    for j := 0 to |selects|
      invariant result == Assoc(done + SelectEntries(namespace, selects[..j]))
    {
      var selectNode := selects[j];
      var id := AttributeValue(selectNode, "id");
      var parameterType := AttributeValue(selectNode, "parameterType");
      var resultType := AttributeValue(selectNode, "resultType");
      var sql := GetText(selectNode.content);
      var rewritten, parameter := RewritePlaceholders(sql);
      var xNode := XNode(namespace, id, parameterType, resultType, rewritten, parameter);
      var key := JavaString(namespace) + "." + JavaString(id);
      assert (key, xNode) == Statement(namespace, selectNode);
      PutStatementStep(namespace, selects, j, done);
      result := result[key := xNode];
    }
    assert selects[..|selects|] == selects;
  }

  lemma {:induction false} MapperEntriesAppend(a: seq<Node>, b: seq<Node>, load: Option<string> -> Option<Element>)
    requires MapperEntries(a, load).Ok?
    ensures MapperEntries(b, load).Err? ==> MapperEntries(a + b, load) == MapperEntries(b, load)
    ensures MapperEntries(b, load).Ok? ==>
      MapperEntries(a + b, load) == Ok(MapperEntries(a, load).value + MapperEntries(b, load).value)
  {
    if a == [] {
      assert a + b == b;
      assert MapperEntries(a, load).value == [];
      if MapperEntries(b, load).Ok? {
        assert MapperEntries(a, load).value + MapperEntries(b, load).value == MapperEntries(b, load).value;
      }
    } else {
      assert (a + b)[1..] == a[1..] + b;
      assert (a + b)[0] == a[0];
      MapperEntriesAppend(a[1..], b, load);
      if MapperEntries(b, load).Ok? {
        var root := load(AttributeValue(a[0].element, "resource")).value;
        SeqAssoc(SelectEntries(AttributeValue(root, "namespace"), SelectNodes(root.content)),
                 MapperEntries(a[1..], load).value, MapperEntries(b, load).value);
      }
    }
  }

  /** `getMapperElement`: every statement of every mapper resource, keyed by
      `namespace.id` (a later statement with the same key wins), or the
      first failure. */
  method GetMapperElement(elementList: seq<Element>, load: Option<string> -> Option<Element>)
    returns (r: Try<map<string, XNode>, BuildError>)
    ensures elementList == [] ==> r == Err(NoElement)
    ensures elementList != [] ==>
      var entries := MapperEntries(elementList[0].content, load);
      && (entries.Err? ==> r == Err(entries.error))
      && (entries.Ok? ==> r == Ok(Assoc(entries.value)))
  {
    if elementList == [] {
      return Err(NoElement);
    }
    var mapperList := elementList[0].content;
    var mapperElement: map<string, XNode> := map[];
    for i := 0 to |mapperList|
      invariant MapperEntries(mapperList[..i], load).Ok?
      invariant mapperElement == Assoc(MapperEntries(mapperList[..i], load).value)
    {
      ghost var before := MapperEntries(mapperList[..i], load).value;
      assert mapperList[..i + 1] == mapperList[..i] + [mapperList[i]];
      assert mapperList == mapperList[..i] + mapperList[i..];
      MapperEntriesAppend(mapperList[..i], mapperList[i..], load);
      MapperEntriesAppend(mapperList[..i], [mapperList[i]], load);
      assert mapperList[i..][0] == mapperList[i];
      if mapperList[i].TextNode? {
        return Err(NotAnElement);
      }
      var mapper := mapperList[i].element;
      var resource := AttributeValue(mapper, "resource");
      var document := load(resource);
      if document.None? {
        return Err(MissingResource(resource));
      }
      var rootElement := document.value;
      var namespace := AttributeValue(rootElement, "namespace");
      var selectNodeList := SelectNodes(rootElement.content);
      assert MapperEntries([mapperList[i]], load) == Ok(SelectEntries(namespace, selectNodeList) + []);
      mapperElement := PutStatements(namespace, selectNodeList, mapperElement, before);
      assert SelectEntries(namespace, selectNodeList) + [] == SelectEntries(namespace, selectNodeList);
    }
    assert mapperList[..|mapperList|] == mapperList;
    r := Ok(mapperElement);
  }
}
