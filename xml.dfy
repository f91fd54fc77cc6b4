/**
 * The parsed Doxygen XML element, as the formatter sees it through lxml:
 * a tag, attributes, the leading text, the tail after the element, and the
 * ordered children.
 */
module Xml {
  import opened Wrappers

  datatype Node = Node(
    tag: string,
    attrib: map<string, string>,
    text: Option<string>,
    tail: Option<string>,
    children: seq<Node>)

  /** `node.get(key)`. */
  function Get(n: Node, key: string): Option<string> {
    if key in n.attrib then Some(n.attrib[key]) else None
  }

  /** `node.find(tag)`: the first direct child with that tag, if any. */
  function Find(n: Node, tag: string): (r: Option<Node>)
    ensures r.None? <==> forall k :: 0 <= k < |n.children| ==> n.children[k].tag != tag
    ensures r.Some? ==> exists k :: 0 <= k < |n.children| && n.children[k] == r.value && r.value.tag == tag
                                    && forall j :: 0 <= j < k ==> n.children[j].tag != tag
  {
    FirstWithTag(n.children, tag)
  }

  function FirstWithTag(cs: seq<Node>, tag: string): (r: Option<Node>)
    ensures r.None? <==> forall k :: 0 <= k < |cs| ==> cs[k].tag != tag
    ensures r.Some? ==> exists k :: 0 <= k < |cs| && cs[k] == r.value && r.value.tag == tag
                                    && forall j :: 0 <= j < k ==> cs[j].tag != tag
  {
    if cs == [] then None
    else if cs[0].tag == tag then Some(cs[0])
    else
      var r := FirstWithTag(cs[1..], tag);
      if r.Some? then
        var k :| 0 <= k < |cs[1..]| && cs[1..][k] == r.value && r.value.tag == tag
                 && forall j :: 0 <= j < k ==> cs[1..][j].tag != tag;
        assert cs[k + 1] == r.value;
        assert forall j :: 0 <= j < k + 1 ==> cs[j].tag != tag by {
          forall j | 0 <= j < k + 1 ensures cs[j].tag != tag {
            if j > 0 { assert cs[j] == cs[1..][j - 1]; }
          }
        }
        r
      else
        assert forall k :: 1 <= k < |cs| ==> cs[k] == cs[1..][k - 1];
        r
  }
}
