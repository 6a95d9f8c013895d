/** The parsed HTML tree the core reads, and attribute lookup on it. The
    tree is never changed by the core, so it is a value: sibling links are
    positions in the parent's `children`. */
module Html {
  import opened Wrappers
  import opened Errors

  datatype NodeType = ErrorNode | TextNode | DocumentNode | ElementNode | CommentNode | DoctypeNode | RawNode

  datatype Attribute = Attribute(namespace: string, key: string, val: string)

  /** `data` is the tag name of an element and the text of a text node;
      whitespace between tags is a text node and so a sibling like any other. */
  datatype Node = Node(nodeType: NodeType, data: string, attr: seq<Attribute>, children: seq<Node>)

  predicate IsTable(n: Node)
  {
    n.nodeType == ElementNode && n.data == "table"
  }

  /** Position k holds the first attribute whose key is name. */
  predicate FirstKeyAt(attrs: seq<Attribute>, name: string, k: int)
  {
    0 <= k < |attrs| && attrs[k].key == name && forall j | 0 <= j < k :: attrs[j].key != name
  }

  /** The value of the first attribute whose key is name, if any. */
  function AttrLookup(attrs: seq<Attribute>, name: string): Option<string>
  {
    if attrs == [] then None
    else if attrs[0].key == name then Some(attrs[0].val)
    else AttrLookup(attrs[1..], name)
  }

  /** AttrLookup finds the first attribute with the key, and fails exactly
      when no attribute has it. */
  lemma {:induction false} AttrLookupFirst(attrs: seq<Attribute>, name: string)
    ensures AttrLookup(attrs, name).None? <==> forall k | 0 <= k < |attrs| :: attrs[k].key != name
    ensures AttrLookup(attrs, name).Some? ==>
              exists k :: FirstKeyAt(attrs, name, k) && attrs[k].val == AttrLookup(attrs, name).value
  {
    if attrs != [] && attrs[0].key != name {
      AttrLookupFirst(attrs[1..], name);
      if AttrLookup(attrs, name).Some? {
        var k :| FirstKeyAt(attrs[1..], name, k) && attrs[1..][k].val == AttrLookup(attrs, name).value;
        assert FirstKeyAt(attrs, name, k + 1);
      }
    } else if attrs != [] {
      assert FirstKeyAt(attrs, name, 0);
    }
  }

  /** getAttributeByName: a linear search over the node's attributes that
      returns the first match, or an error naming the missing key. */
  method GetAttributeByName(node: Node, name: string) returns (r: Result<string, Error>)
    ensures r.Success? ==> exists k :: FirstKeyAt(node.attr, name, k) && node.attr[k].val == r.value
    ensures r.Failure? ==> r.error == AttributeMissing(name)
    ensures r.Failure? <==> forall k | 0 <= k < |node.attr| :: node.attr[k].key != name
    ensures AttrLookup(node.attr, name) == if r.Success? then Some(r.value) else None
  {
    for i := 0 to |node.attr|
      invariant forall j | 0 <= j < i :: node.attr[j].key != name
      invariant AttrLookup(node.attr, name) == AttrLookup(node.attr[i..], name)
    {
      if node.attr[i].key == name {
        assert FirstKeyAt(node.attr, name, i);
        return Success(node.attr[i].val);
      }
      assert node.attr[i..][1..] == node.attr[i + 1..];
    }
    return Failure(AttributeMissing(name));
  }
}
