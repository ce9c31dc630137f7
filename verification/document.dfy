/**
 The document as the bridge sees it: an immutable sequence of element nodes in
 document order, each with its attributes, the number of its child nodes and its
 inner markup. A node is identified by its position in the sequence.
 */
module Document {
  import opened Js

  /** The attribute whose presence marks a node for mounting; its value names
      the component. */
  const CLASS_NAME_ATTR: string := "data-react-class"

  /** The optional attribute carrying the component's props as JSON text. */
  const PROPS_ATTR: string := "data-react-props"

  datatype Node = Node(attributes: map<string, string>, childCount: nat, innerHtml: string)

  /** `node.getAttribute(name)`: the attribute's text, or `null` when absent. */
  function GetAttribute(node: Node, name: string): (v: Value)
    ensures v.Str? || v.Null?
    ensures v.Null? <==> name !in node.attributes
    ensures v.Str? ==> v.s == node.attributes[name]
  {
    if name in node.attributes then Str(node.attributes[name]) else Null
  }

  /** A node matched by the selector `[data-react-class]`, whatever the
      attribute's value (the empty string included). */
  predicate IsMarker(node: Node) {
    CLASS_NAME_ATTR in node.attributes
  }

  /** The positions, from `from` on, of the marker nodes, in document order. */
  function MarkersFrom(doc: seq<Node>, from: nat): (r: seq<nat>)
    requires from <= |doc|
    ensures forall j :: 0 <= j < |r| ==> from <= r[j] < |doc| && IsMarker(doc[r[j]])
    ensures forall p :: from <= p < |doc| && IsMarker(doc[p]) ==> p in r
    ensures forall j, k :: 0 <= j < k < |r| ==> r[j] < r[k]
    decreases |doc| - from
  {
    if from == |doc| then []
    else if IsMarker(doc[from]) then [from] + MarkersFrom(doc, from + 1)
    else MarkersFrom(doc, from + 1)
  }

  /** `getNodes()`: the positions of all marker nodes, strictly increasing
      (document order, no repeats); a position is listed exactly when its node
      carries the class-name attribute. The document is re-read on every call. */
  function GetNodes(doc: seq<Node>): (r: seq<nat>)
    ensures forall j :: 0 <= j < |r| ==> r[j] < |doc| && IsMarker(doc[r[j]])
    ensures forall p :: 0 <= p < |doc| ==> (p in r <==> IsMarker(doc[p]))
    ensures forall j, k :: 0 <= j < k < |r| ==> r[j] < r[k]
  {
    MarkersFrom(doc, 0)
  }

  /** `nodeChildren(node)`: `null` for a node without child nodes; otherwise a
      single wrapper element carrying the node's inner markup unchanged, as raw
      HTML. */
  function NodeChildren(node: Node): (c: Value)
    ensures c.Null? <==> node.childCount == 0
    ensures c.Null? || c == RawHtmlDiv(node.innerHtml)
    ensures Truthy(c) <==> node.childCount > 0
  {
    if node.childCount > 0 then RawHtmlDiv(node.innerHtml) else Null
  }

  /** A node whose child nodes were all removed; its attributes are kept. */
  function Emptied(node: Node): (r: Node)
    ensures r.attributes == node.attributes
    ensures NodeChildren(r) == Null
  {
    node.(childCount := 0, innerHtml := "")
  }

  /** The markers as `unmountComponents` leaves them after a completed mount
      pass and a completed unmount pass: each marker's content, replaced by its
      render, has been removed by the unmount, and its attributes are kept.
      Only markers are updated. Other nodes are kept as they were, although a
      marker's ancestors have lost its content and the nodes inside a marker
      are gone: no pass reads the content of a node that is not a marker. */
  function AfterUnmount(doc: seq<Node>): (r: seq<Node>)
    ensures |r| == |doc|
    ensures forall p :: 0 <= p < |doc| ==> r[p].attributes == doc[p].attributes
    ensures forall p :: 0 <= p < |doc| && IsMarker(doc[p]) ==> r[p] == Emptied(doc[p])
    ensures forall p :: 0 <= p < |doc| && !IsMarker(doc[p]) ==> r[p] == doc[p]
  {
    seq(|doc|, p requires 0 <= p < |doc| => if IsMarker(doc[p]) then Emptied(doc[p]) else doc[p])
  }

  /** The marker scan reads nothing but the class-name attribute: two
      documents whose nodes agree on being markers list the same positions. */
  lemma {:induction false} SameMarkersSameNodes(doc1: seq<Node>, doc2: seq<Node>, from: nat)
    requires |doc1| == |doc2| && from <= |doc1|
    requires forall p :: 0 <= p < |doc1| ==> (IsMarker(doc1[p]) <==> IsMarker(doc2[p]))
    ensures MarkersFrom(doc1, from) == MarkersFrom(doc2, from)
    decreases |doc1| - from
  {
    if from < |doc1| {
      SameMarkersSameNodes(doc1, doc2, from + 1);
      var rest := MarkersFrom(doc1, from + 1);
      if IsMarker(doc1[from]) {
        assert MarkersFrom(doc1, from) == [from] + rest == MarkersFrom(doc2, from);
      } else {
        assert MarkersFrom(doc1, from) == rest == MarkersFrom(doc2, from);
      }
    }
  }
}
