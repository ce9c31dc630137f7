/**
 The mount/unmount engine: one mount step per marker node, and the two batch
 passes over the document. The rendering engine is not modelled; each call into
 it is recorded as an event of the trace a pass returns.
 */
module Mount {
  import opened Js
  import opened Document
  import opened Registry

  /** What the bridge borrows from its host environment: the global object
      (`window`), the expression evaluator (`eval`), the JSON decoder
      (`JSON.parse`), the rendering engine (`ReactDOM.render` of an element
      built from a component and its props) and its unmounting entry point
      (`ReactDOM.unmountComponentAtNode` of the node at a position). All but
      the first may throw: the rendering engine rejects a value that is not a
      component type and propagates an exception the component raises while
      rendering or while being unmounted. */
  datatype Host = Host(globals: map<string, Value>,
                       eval: string -> Completion<Value>,
                       parse: string -> Completion<Value>,
                       render: (Value, map<string, Value>) -> Completion<()>,
                       unmount: nat -> Completion<()>)

  /** A call into the rendering engine: `ReactDOM.render` of an element built
      from `component` and the `props` object handed to `React.createElement`,
      into the node at `target`; or `ReactDOM.unmountComponentAtNode` there. */
  datatype Event =
    | Render(target: nat, component: Value, props: map<string, Value>)
    | Unmount(target: nat)

  /** How a batch pass ended: every marker processed, or aborted by an
      exception, which propagates to the pass's caller. */
  datatype Outcome = Completed | Aborted(exception: Value)

  /** The events a pass emitted, in order, and how it ended. */
  datatype Batch = Batch(trace: seq<Event>, outcome: Outcome)

  const NOT_FOUND_PREFIX: string := "Cannot find component: '"
  const REGISTER_HINT: string :=
    ". Make sure you've registered your component, for example: LuckyReact.register({ Component })."

  /** The message of the error thrown for a class name nothing resolves. */
  function NotFoundMessage(className: Value): (msg: string)
    requires className.Str? || className.Null?
    ensures StartsWith(msg, NOT_FOUND_PREFIX + ToJsString(className) + "'")
    ensures EndsWith(msg, REGISTER_HINT)
  {
    NOT_FOUND_PREFIX + ToJsString(className) + "'" + REGISTER_HINT
  }

  /** `propsJson && JSON.parse(propsJson)`: an absent (`null`) or empty
      attribute is returned as it is, without decoding; any other text is
      decoded, and a decoding failure propagates. */
  function DecodeProps(parse: string -> Completion<Value>, propsJson: Value): (r: Completion<Value>)
    requires propsJson.Str? || propsJson.Null?
    ensures !Truthy(propsJson) ==> r == Normal(propsJson) && !Truthy(r.value)
    ensures Truthy(propsJson) ==> r == parse(propsJson.s)
  {
    if Truthy(propsJson) then parse(propsJson.s) else Normal(propsJson)
  }

  /** `{...props, children}`: the properties spread from the decoded payload,
      with `children` set to the node's children whatever the payload held. */
  function RenderProps(props: Value, node: Node): (config: map<string, Value>)
    ensures "children" in config && config["children"] == NodeChildren(node)
    ensures forall k :: k != "children" ==> (k in config <==> k in Spread(props))
    ensures forall k :: k in config && k != "children" ==> config[k] == Spread(props)[k]
  {
    Spread(props)["children" := NodeChildren(node)]
  }

  /** `mountComponent(node)` for the node at `target`. In order: resolve the
      class name (the evaluator may throw), decode the props (the decoder may
      throw), throw a not-found error if the constructor is falsy, and
      otherwise render it with `{...props, children}` (the rendering engine may
      throw). A successful mount emits exactly one render, of a truthy
      constructor the rendering engine accepted, whose `children` property is
      the node's children whatever the payload says. */
  function MountComponent(components: Components, host: Host, node: Node, target: nat): (r: Completion<Event>)
    ensures r.Normal? ==> r.value.Render? && r.value.target == target && Truthy(r.value.component)
    ensures r.Normal? ==> "children" in r.value.props && r.value.props["children"] == NodeChildren(node)
    ensures r.Normal? ==> host.render(r.value.component, r.value.props).Normal?
    ensures var resolved := GetConstructor(components, host.globals, host.eval, GetAttribute(node, CLASS_NAME_ATTR));
            var props := DecodeProps(host.parse, GetAttribute(node, PROPS_ATTR));
            && (resolved.Throw? ==> r == Throw(resolved.exception))
            && (resolved.Normal? && props.Throw? ==> r == Throw(props.exception))
            && (resolved.Normal? && props.Normal? && !Truthy(resolved.value) ==>
                  r == Throw(Error(NotFoundMessage(GetAttribute(node, CLASS_NAME_ATTR)))))
            && (resolved.Normal? && props.Normal? && Truthy(resolved.value) ==>
                  var painted := host.render(resolved.value, RenderProps(props.value, node));
                  && (painted.Throw? ==> r == Throw(painted.exception))
                  && (painted.Normal? ==> r == Normal(Render(target, resolved.value, RenderProps(props.value, node)))))
            && (r.Normal? ==> resolved.Normal? && props.Normal? && Truthy(resolved.value))
  {
    var className := GetAttribute(node, CLASS_NAME_ATTR);
    match GetConstructor(components, host.globals, host.eval, className)
    case Throw(e) => Throw(e)
    case Normal(ctor) =>
      match DecodeProps(host.parse, GetAttribute(node, PROPS_ATTR))
      case Throw(e) => Throw(e)
      case Normal(props) =>
        if !Truthy(ctor) then
          Throw(Error(NotFoundMessage(className)))
        else
          var config := RenderProps(props, node);
          match host.render(ctor, config)
          case Throw(e) => Throw(e)
          case Normal(_) => Normal(Render(target, ctor, config))
  }

  /** Mounts the nodes at `targets` one after the other. The first exception
      aborts the pass: the trace holds the renders of exactly the targets
      before the failing one, and the failing one's exception is the outcome. */
  function MountEach(components: Components, host: Host, doc: seq<Node>, targets: seq<nat>): (b: Batch)
    requires forall j :: 0 <= j < |targets| ==> targets[j] < |doc|
    ensures |b.trace| <= |targets|
    ensures forall j :: 0 <= j < |b.trace| ==>
              MountComponent(components, host, doc[targets[j]], targets[j]) == Normal(b.trace[j])
    ensures b.outcome.Completed? <==> |b.trace| == |targets|
    ensures b.outcome.Aborted? ==>
              MountComponent(components, host, doc[targets[|b.trace|]], targets[|b.trace|])
                == Throw(b.outcome.exception)
  {
    if |targets| == 0 then Batch([], Completed)
    else
      match MountComponent(components, host, doc[targets[0]], targets[0])
      case Throw(e) => Batch([], Aborted(e))
      case Normal(ev) =>
        var rest := MountEach(components, host, doc, targets[1..]);
        Batch([ev] + rest.trace, rest.outcome)
  }

  /** `mountComponents()`: mount every marker node, in document order. */
  function MountComponents(components: Components, host: Host, doc: seq<Node>): (b: Batch)
    ensures |b.trace| <= |GetNodes(doc)|
    ensures forall j :: 0 <= j < |b.trace| ==>
              MountComponent(components, host, doc[GetNodes(doc)[j]], GetNodes(doc)[j]) == Normal(b.trace[j])
    ensures b.outcome.Completed? <==> |b.trace| == |GetNodes(doc)|
    ensures b.outcome.Aborted? ==>
              MountComponent(components, host, doc[GetNodes(doc)[|b.trace|]], GetNodes(doc)[|b.trace|])
                == Throw(b.outcome.exception)
  {
    MountEach(components, host, doc, GetNodes(doc))
  }

  /** Unmounts the nodes at `targets` one after the other. There is no
      `try`: the first exception aborts the pass, so the trace holds the
      unmounts of exactly the targets before the failing one, and the failing
      one's exception is the outcome. */
  function UnmountEach(host: Host, targets: seq<nat>): (b: Batch)
    ensures |b.trace| <= |targets|
    ensures forall j :: 0 <= j < |b.trace| ==>
              b.trace[j] == Unmount(targets[j]) && host.unmount(targets[j]).Normal?
    ensures b.outcome.Completed? <==> |b.trace| == |targets|
    ensures b.outcome.Aborted? ==> host.unmount(targets[|b.trace|]) == Throw(b.outcome.exception)
  {
    if |targets| == 0 then Batch([], Completed)
    else
      match host.unmount(targets[0])
      case Throw(e) => Batch([], Aborted(e))
      case Normal(_) =>
        var rest := UnmountEach(host, targets[1..]);
        Batch([Unmount(targets[0])] + rest.trace, rest.outcome)
  }

  /** `unmountComponents()`: unmount every marker node, in document order,
      until one unmount throws. */
  function UnmountComponents(host: Host, doc: seq<Node>): (b: Batch)
    ensures |b.trace| <= |GetNodes(doc)|
    ensures forall j :: 0 <= j < |b.trace| ==> b.trace[j] == Unmount(GetNodes(doc)[j])
    ensures b.outcome.Completed? <==> |b.trace| == |GetNodes(doc)|
    ensures b.outcome.Aborted? ==>
              host.unmount(GetNodes(doc)[|b.trace|]) == Throw(b.outcome.exception)
  {
    UnmountEach(host, GetNodes(doc))
  }

  /** An absent or empty props attribute yields exactly `{children}`. */
  lemma PropsWithoutPayload(components: Components, host: Host, node: Node, target: nat)
    requires PROPS_ATTR !in node.attributes || node.attributes[PROPS_ATTR] == ""
    requires MountComponent(components, host, node, target).Normal?
    ensures MountComponent(components, host, node, target).value.props
         == map["children" := NodeChildren(node)]
  {
  }

  /** A props attribute decoding to an object yields that object's properties
      plus `children`, and the node's `children` replaces any `children` in
      the payload. */
  lemma PropsFromObject(components: Components, host: Host, node: Node, target: nat,
                        fields: map<string, Value>)
    requires PROPS_ATTR in node.attributes && node.attributes[PROPS_ATTR] != ""
    requires host.parse(node.attributes[PROPS_ATTR]) == Normal(Obj(fields))
    requires MountComponent(components, host, node, target).Normal?
    ensures var props := MountComponent(components, host, node, target).value.props;
            && props.Keys == fields.Keys + {"children"}
            && (forall k :: k in fields && k != "children" ==> props[k] == fields[k])
            && props["children"] == NodeChildren(node)
  {
  }

  /** A props attribute decoding to an array yields its elements under the
      keys "0", "1", ..., plus `children`; no element is lost to `children`. */
  lemma PropsFromArray(components: Components, host: Host, node: Node, target: nat,
                       items: seq<Value>)
    requires PROPS_ATTR in node.attributes && node.attributes[PROPS_ATTR] != ""
    requires host.parse(node.attributes[PROPS_ATTR]) == Normal(Arr(items))
    requires MountComponent(components, host, node, target).Normal?
    ensures var props := MountComponent(components, host, node, target).value.props;
            && props["children"] == NodeChildren(node)
            && (forall i :: 0 <= i < |items| ==> IndexKey(i) in props && props[IndexKey(i)] == items[i])
            && (forall k :: k in props && k != "children" ==> exists i :: 0 <= i < |items| && k == IndexKey(i))
  {
    var props := MountComponent(components, host, node, target).value.props;
    forall i | 0 <= i < |items|
      ensures IndexKey(i) in props && props[IndexKey(i)] == items[i]
    {
      ChildrenIsNotAnIndexKey(i);
    }
  }

  /** A class name for which every tier yields a falsy value without throwing
      is fatal: the node gets no render and the error names the class and
      tells the caller to register it. */
  lemma MissingComponentIsFatal(components: Components, host: Host, node: Node, target: nat)
    requires IsMarker(node)
    requires var name := node.attributes[CLASS_NAME_ATTR];
             && !Truthy(Get(components, name)) && !Truthy(Get(host.globals, name))
             && host.eval(name).Normal? && !Truthy(host.eval(name).value)
    requires DecodeProps(host.parse, GetAttribute(node, PROPS_ATTR)).Normal?
    ensures var r := MountComponent(components, host, node, target);
            var name := node.attributes[CLASS_NAME_ATTR];
            && r.Throw? && r.exception.Error?
            && StartsWith(r.exception.message, NOT_FOUND_PREFIX + name + "'")
            && EndsWith(r.exception.message, REGISTER_HINT)
  {
  }

  /** The `j`-th render of a mount pass is the render of the `j`-th marker. */
  lemma MountTraceFollowsMarkers(components: Components, host: Host, doc: seq<Node>)
    ensures var b := MountComponents(components, host, doc);
            forall j :: 0 <= j < |b.trace| ==> b.trace[j].Render? && b.trace[j].target == GetNodes(doc)[j]
  {
    var b := MountComponents(components, host, doc);
    var nodes := GetNodes(doc);
    forall j | 0 <= j < |b.trace|
      ensures b.trace[j].Render? && b.trace[j].target == nodes[j]
    {
      assert MountComponent(components, host, doc[nodes[j]], nodes[j]) == Normal(b.trace[j]);
    }
  }

  /** The targets of a trace that follows a strictly increasing list of
      positions without reaching its end: they stay below the first position
      not reached, and every listed position below it is a target. */
  lemma PrefixOfIncreasing(trace: seq<Event>, nodes: seq<nat>)
    requires |trace| < |nodes|
    requires forall j :: 0 <= j < |trace| ==> trace[j].target == nodes[j]
    requires forall j, k :: 0 <= j < k < |nodes| ==> nodes[j] < nodes[k]
    ensures forall j :: 0 <= j < |trace| ==> trace[j].target < nodes[|trace|]
    ensures forall p :: p in nodes && p < nodes[|trace|] ==>
              exists j :: 0 <= j < |trace| && trace[j].target == p
  {
    forall p | p in nodes && p < nodes[|trace|]
      ensures exists j :: 0 <= j < |trace| && trace[j].target == p
    {
      var i :| 0 <= i < |nodes| && nodes[i] == p;
      assert trace[i].target == p;
    }
  }

  /** A mount pass renders only marker nodes, in strictly increasing
      document order. */
  lemma MountInDocumentOrder(components: Components, host: Host, doc: seq<Node>)
    ensures var b := MountComponents(components, host, doc);
            && (forall j :: 0 <= j < |b.trace| ==> b.trace[j].Render? && IsMarker(doc[b.trace[j].target]))
            && (forall j, k :: 0 <= j < k < |b.trace| ==> b.trace[j].target < b.trace[k].target)
  {
    MountTraceFollowsMarkers(components, host, doc);
  }

  /** When a pass is aborted at some marker, every marker before it was
      rendered (nothing is rolled back) and no node at or after it was. */
  lemma AbortKeepsEarlierRenders(components: Components, host: Host, doc: seq<Node>)
    requires MountComponents(components, host, doc).outcome.Aborted?
    ensures var b := MountComponents(components, host, doc);
            var failed := GetNodes(doc)[|b.trace|];
            && (forall j :: 0 <= j < |b.trace| ==> b.trace[j].target < failed)
            && (forall p :: 0 <= p < |doc| && IsMarker(doc[p]) && p < failed ==>
                  exists j :: 0 <= j < |b.trace| && b.trace[j].target == p)
  {
    MountTraceFollowsMarkers(components, host, doc);
    PrefixOfIncreasing(MountComponents(components, host, doc).trace, GetNodes(doc));
  }

  /** Unmounting touches only marker nodes, each at most once, in document
      order; a completed pass unmounts a node if and only if it carries the
      class-name attribute. */
  lemma UnmountExactlyMarkers(host: Host, doc: seq<Node>)
    ensures var b := UnmountComponents(host, doc);
            && (forall j :: 0 <= j < |b.trace| ==> b.trace[j].Unmount? && IsMarker(doc[b.trace[j].target]))
            && (forall j, k :: 0 <= j < k < |b.trace| ==> b.trace[j].target < b.trace[k].target)
            && (b.outcome.Completed? ==>
                  forall p :: 0 <= p < |doc| ==> (Unmount(p) in b.trace <==> IsMarker(doc[p])))
  {
    var b := UnmountComponents(host, doc);
    var nodes := GetNodes(doc);
    if b.outcome.Completed? {
      forall p | 0 <= p < |doc|
        ensures Unmount(p) in b.trace <==> IsMarker(doc[p])
      {
        if IsMarker(doc[p]) {
          var i :| 0 <= i < |nodes| && nodes[i] == p;
          assert b.trace[i] == Unmount(p);
        }
      }
    }
  }

  /** When an unmount throws, the pass stops there: every marker before the
      failing one was unmounted, and no node at or after it was. */
  lemma UnmountAbortKeepsEarlier(host: Host, doc: seq<Node>)
    requires UnmountComponents(host, doc).outcome.Aborted?
    ensures var b := UnmountComponents(host, doc);
            var failed := GetNodes(doc)[|b.trace|];
            && (forall j :: 0 <= j < |b.trace| ==> b.trace[j].target < failed)
            && (forall p :: 0 <= p < |doc| && IsMarker(doc[p]) && p < failed ==> Unmount(p) in b.trace)
  {
    var b := UnmountComponents(host, doc);
    var nodes := GetNodes(doc);
    PrefixOfIncreasing(b.trace, nodes);
    forall p | 0 <= p < |doc| && IsMarker(doc[p]) && p < nodes[|b.trace|]
      ensures Unmount(p) in b.trace
    {
      var j :| 0 <= j < |b.trace| && b.trace[j].target == p;
      assert b.trace[j] == Unmount(p);
    }
  }

  /** After a completed mount pass and a completed `unmountComponents`, every
      marker is empty (its content was replaced by its render, which the
      unmount then removed) and its attributes are unchanged. Mounting that
      document again visits the same markers with the same components and
      props, except that `children` is now `null`: every render the second
      pass emits is the first pass's render there with `children` set to
      `null`, and the second pass stops only where the rendering engine
      throws for exactly those props. */
  lemma RemountAfterUnmount(components: Components, host: Host, doc: seq<Node>)
    requires MountComponents(components, host, doc).outcome.Completed?
    ensures GetNodes(AfterUnmount(doc)) == GetNodes(doc)
    ensures var first := MountComponents(components, host, doc).trace;
            var second := MountComponents(components, host, AfterUnmount(doc));
            && |second.trace| <= |first|
            && (forall j :: 0 <= j < |second.trace| ==>
                  && first[j].Render?
                  && second.trace[j] == Render(first[j].target, first[j].component, first[j].props["children" := Null]))
            && (second.outcome.Completed? <==> |second.trace| == |first|)
            && (second.outcome.Aborted? ==>
                  var k := |second.trace|;
                  k < |first| && first[k].Render? &&
                  host.render(first[k].component, first[k].props["children" := Null]) == Throw(second.outcome.exception))
  {
    SameMarkersSameNodes(doc, AfterUnmount(doc), 0);
    RemountRenders(components, host, doc);
    if MountComponents(components, host, AfterUnmount(doc)).outcome.Aborted? {
      RemountStops(components, host, doc);
    }
  }

  /** The renders of the second pass of `RemountAfterUnmount`. */
  lemma RemountRenders(components: Components, host: Host, doc: seq<Node>)
    requires MountComponents(components, host, doc).outcome.Completed?
    requires GetNodes(AfterUnmount(doc)) == GetNodes(doc)
    ensures var first := MountComponents(components, host, doc).trace;
            var second := MountComponents(components, host, AfterUnmount(doc)).trace;
            forall j :: 0 <= j < |second| ==>
              && first[j].Render?
              && second[j] == Render(first[j].target, first[j].component, first[j].props["children" := Null])
  {
    var emptied := AfterUnmount(doc);
    var nodes := GetNodes(doc);
    var first := MountComponents(components, host, doc).trace;
    var second := MountComponents(components, host, emptied).trace;
    forall j | 0 <= j < |second|
      ensures first[j].Render?
      ensures second[j] == Render(first[j].target, first[j].component, first[j].props["children" := Null])
    {
      var p := nodes[j];
      assert MountComponent(components, host, doc[p], p) == Normal(first[j]);
      assert MountComponent(components, host, emptied[p], p) == Normal(second[j]);
      RemountEmptiedNodeRenders(components, host, doc[p], p);
    }
  }

  /** Where the second pass of `RemountAfterUnmount` stops. */
  lemma RemountStops(components: Components, host: Host, doc: seq<Node>)
    requires MountComponents(components, host, doc).outcome.Completed?
    requires GetNodes(AfterUnmount(doc)) == GetNodes(doc)
    requires MountComponents(components, host, AfterUnmount(doc)).outcome.Aborted?
    ensures var first := MountComponents(components, host, doc).trace;
            var second := MountComponents(components, host, AfterUnmount(doc));
            var k := |second.trace|;
            && k < |first| && first[k].Render?
            && host.render(first[k].component, first[k].props["children" := Null]) == Throw(second.outcome.exception)
  {
    var emptied := AfterUnmount(doc);
    var nodes := GetNodes(doc);
    var first := MountComponents(components, host, doc).trace;
    var second := MountComponents(components, host, emptied);
    var k := |second.trace|;
    var p := nodes[k];
    assert MountComponent(components, host, doc[p], p) == Normal(first[k]);
    assert MountComponent(components, host, emptied[p], p) == Throw(second.outcome.exception);
    RemountEmptiedNode(components, host, doc[p], p);
  }

  /** One marker, mounted before and after its content was emptied: the
      second mount hands the rendering engine the same component and the same
      props with `children` set to `null`, and it succeeds with that render
      exactly when the engine accepts it, and otherwise throws what the
      engine throws. */
  lemma RemountEmptiedNode(components: Components, host: Host, node: Node, target: nat)
    requires MountComponent(components, host, node, target).Normal?
    ensures var before := MountComponent(components, host, node, target).value;
            var after := MountComponent(components, host, Emptied(node), target);
            var painted := host.render(before.component, before.props["children" := Null]);
            && (painted.Normal? ==> after == Normal(Render(target, before.component, before.props["children" := Null])))
            && (painted.Throw? ==> after == Throw(painted.exception))
  {
    var props := DecodeProps(host.parse, GetAttribute(node, PROPS_ATTR)).value;
    assert RenderProps(props, Emptied(node)) == RenderProps(props, node)["children" := Null];
  }

  /** `RemountEmptiedNode` when both mounts succeed. */
  lemma RemountEmptiedNodeRenders(components: Components, host: Host, node: Node, target: nat)
    requires MountComponent(components, host, node, target).Normal?
    requires MountComponent(components, host, Emptied(node), target).Normal?
    ensures var before := MountComponent(components, host, node, target).value;
            MountComponent(components, host, Emptied(node), target).value
              == Render(target, before.component, before.props["children" := Null])
  {
    RemountEmptiedNode(components, host, node, target);
  }
}
