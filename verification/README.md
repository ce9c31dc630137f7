# lucky-react bridge, modelled in Dafny

`LuckyReact` (`index.js`) is a small discovery-and-dispatch layer between a
server-rendered page and React. It finds the elements carrying a
`data-react-class` attribute and looks the named component up: first in its
registry, then on `window`, then by `eval`. It decodes the optional
`data-react-props` JSON and renders the component into the element. The
element's existing inner markup is passed as raw HTML `children`. On
Turbolinks navigation it unmounts the components again. `register` adds
components to the registry and re-installs the two Turbolinks listeners.

The model replaces the DOM, React and the event target with plain data:

- The document is a sequence of nodes. Each node has its attributes, a child-node
  count and its `innerHTML`. A node is identified by its position.
- The registry and `window` are maps from names to JavaScript values (`Js.Value`).
- `eval`, `JSON.parse`, `ReactDOM.render` and `ReactDOM.unmountComponentAtNode`
  are oracle functions passed in as `Mount.Host`. Each returns normally or
  throws (`Js.Completion`). The render oracle stands for React rejecting a value
  that is not a component type and for an exception the component raises while
  rendering; the unmount oracle for an exception raised while unmounting.
- The document's listener list is a multiset of (event, handler) registrations.
- The rendering engine is a trace of `Render(target, component, props)` and
  `Unmount(target)` events. A pass ends `Completed` or `Aborted(exception)`.

Modules, leaf first:

| file | module | models |
|---|---|---|
| `js.dfy` | `Js` | values, truthiness, completions, object spread `{...v}` |
| `document.dfy` | `Document` | nodes, `getAttribute`, `getNodes`, `nodeChildren` |
| `registry.dfy` | `Registry` | the registry merge and `getConstructor`'s three tiers |
| `binding.dfy` | `Binding` | `setup`, `teardown` and `start` on the listener multiset |
| `mount.dfy` | `Mount` | `mountComponent`, `mountComponents`, `unmountComponents` |
| `lucky_react.dfy` | `LuckyReact` | the object's state, `register`, sequences of calls |

Behaviour of `index.js` worth noting:

- `mountComponent` resolves the constructor (index.js:72) before it decodes the
  props (index.js:75). So an exception from `eval` wins over a malformed
  payload, and a malformed payload wins over the not-found error (index.js:77-82).
- An empty `data-react-props` is falsy, so `propsJson && JSON.parse(propsJson)`
  (index.js:75) does not decode it, just as for an absent one. Both yield
  exactly `{children}`.
- An exception thrown by `eval` (index.js:136), such as the ReferenceError for
  an unknown identifier, propagates as it is. Only a resolved value that is
  falsy without throwing produces the "Cannot find component" error.
- The render always receives a `children` property (index.js:87). When the node
  has no child nodes, `nodeChildren` returns `null` (index.js:100), so
  `children` is `null`; the property is never omitted.

## Model

| member | source | states |
|---|---|---|
| Js.Truthy | index.js:75-77 | the falsy values are exactly `undefined`, `null`, `false`, `0` and `""`; this is what `&&` (index.js:75), `!constructor` (index.js:77) and the `||` tiers (index.js:136) test |
| Js.Spread | index.js:87 | `{...props}` copies an object's own properties, an array's or string's indexed elements under "0", "1", ..., and nothing from any falsy value |
| Js.IndexKeyInjective | index.js:87 | distinct indices spread to distinct property keys, so no spread element overwrites another |
| Js.ChildrenIsNotAnIndexKey | index.js:87 | no index key produced by spreading an array or string is `children`, so `children` never hides a spread element |
| Document.GetAttribute | index.js:71-74 | an attribute reads as its text when present and as `null` exactly when absent |
| Document.GetNodes | index.js:50-52 | the marker positions, strictly increasing; a position is listed if and only if its node has `data-react-class` |
| Document.NodeChildren | index.js:96-102 | `null` exactly when the node has no child nodes, otherwise a wrapper holding `innerHTML` unchanged; truthy exactly when there are children |
| Document.AfterUnmount | index.js:107-113 | after a completed mount pass and a completed unmount pass, every marker is empty with its attributes kept; other nodes are not updated |
| Document.SameMarkersSameNodes | index.js:50-52 | the scan reads only the class-name attribute: documents that agree on which nodes are markers list the same positions |
| Registry.Merge | index.js:151-154 | every key of the hash takes the hash's value; all other entries are kept; no key is lost |
| Registry.Evaluate | index.js:136 | a string class name goes to the evaluator, whose throw propagates; `eval(null)` is `null` |
| Registry.GetConstructor | index.js:135-137 | a truthy registry entry wins; otherwise a truthy global; otherwise the evaluator's result; a falsy result means both earlier tiers were falsy |
| Registry.RegistryShadowsFallbacks | index.js:136 | with a truthy registry entry, the result does not depend on the globals or the evaluator |
| Registry.FalsyEntryFallsThrough | index.js:136 | a falsy registry entry resolves exactly as if it were not registered |
| Registry.EvalOnlyAsLastResort | index.js:136 | if the registry or global entry is truthy, the evaluator is irrelevant and the result is a truthy value |
| Binding.Setup | index.js:118-121 | adds one registration of each bridge handler to its event and keeps every other listener |
| Binding.Teardown | index.js:126-129 | removes one registration of each bridge handler, if any, and keeps every other listener |
| Binding.Start | index.js:142-145 | afterwards each bridge handler is registered at least once, and no more often than before unless it was absent; other listeners are kept |
| Binding.StartBinds | index.js:142-145 | from at most one registration per handler, `start` leaves exactly one |
| Binding.StartIdempotent | index.js:142-145 | a second `start` changes nothing |
| Binding.SetupAloneAccumulates | index.js:118-121 | `setup` twice without `teardown` leaves two registrations, in the model, which has no de-duplication, so there `start` must tear down first |
| Binding.TeardownKeepsSingle | index.js:126-129 | from at most one registration per handler, `teardown` leaves none |
| Mount.NotFoundMessage | index.js:78-82 | the error message starts with `Cannot find component: '<className>'` and ends with the registration hint |
| Mount.DecodeProps | index.js:74-75 | an absent or empty attribute is not decoded and stays falsy; any other text is passed to the decoder, whose throw propagates |
| Mount.RenderProps | index.js:84-87 | `{...props, children}`: every spread key other than `children` with its value, and `children` set to the node's children whatever the payload held |
| Mount.MountComponent | index.js:70-91 | the resolver's throw comes first, then the decoder's, then the not-found error for a falsy constructor, then the rendering engine's throw; success means exactly one render at the node, of a truthy constructor the rendering engine accepted, whose `children` is the node's children |
| Mount.MountEach | index.js:57-63 | the trace is the renders of the targets before the first failure, in order; the outcome is `Completed` exactly when none failed, otherwise the failing target's exception |
| Mount.MountComponents | index.js:57-63 | the same, over the document's marker nodes |
| Mount.UnmountEach | index.js:110-112 | the trace is the unmounts of the targets before the first throwing one, in order; the outcome is `Completed` exactly when none threw, otherwise that unmount's exception |
| Mount.UnmountComponents | index.js:107-113 | the same, over the document's marker nodes: one unmount per marker in document order until one throws |
| Mount.PropsWithoutPayload | index.js:74-87 | an absent or empty props attribute renders with exactly `{children}` |
| Mount.PropsFromObject | index.js:75-87 | a decoded object renders with its own keys plus `children`, its values kept, and the node's `children` overriding the payload's |
| Mount.PropsFromArray | index.js:75-87 | a decoded array renders with its elements under the keys "0", "1", ... plus `children`; no element is lost to `children` |
| Mount.MissingComponentIsFatal | index.js:77-82 | when every tier yields a falsy value without throwing, mounting throws an error naming the class and hinting to register it, and renders nothing |
| Mount.MountTraceFollowsMarkers | index.js:57-63 | the `j`-th render of a pass targets the `j`-th marker node |
| Mount.MountInDocumentOrder | index.js:57-63 | a pass renders only marker nodes, in strictly increasing document order |
| Mount.AbortKeepsEarlierRenders | index.js:57-63 | after an abort, every marker before the failing one stays rendered and nothing at or after it is rendered |
| Mount.UnmountExactlyMarkers | index.js:107-113 | only marker nodes are unmounted, each at most once, in document order; after a completed pass, a node is unmounted if and only if it carries `data-react-class` |
| Mount.UnmountAbortKeepsEarlier | index.js:107-113 | when an unmount throws, every marker before it was unmounted and no node at or after it was |
| Mount.RemountAfterUnmount | index.js:57-113 | after a completed mount pass and a completed unmount pass, mounting again visits the same markers: every render it emits is the first pass's render there with `children` set to `null`; it completes exactly when it emits as many renders as the first pass, and otherwise stops at the first marker whose component the rendering engine rejects with those props, with that exception |
| Mount.RemountEmptiedNode | index.js:70-102 | for one marker, emptying its content hands the rendering engine the same component and props with `children` set to `null`; the mount succeeds with that render when the engine accepts it and otherwise throws the engine's exception |
| LuckyReact.Initial | index.js:45 | at load no name is registered and no listener is installed |
| LuckyReact.Start | index.js:142-145 | rebinding leaves the registry unchanged and, from at most one registration per handler, exactly one |
| LuckyReact.Teardown | index.js:126-129 | unbinding leaves the registry unchanged and, from at most one registration per handler, none |
| LuckyReact.Register | index.js:151-157 | hash keys take the hash's values, other names are unchanged, and the handlers end up registered exactly once |
| LuckyReact.Run | index.js:151-154 | no sequence of calls removes a registry entry |
| LuckyReact.BindingStaysSingle | index.js:142-157 | across any calls of `register`, `start` and `teardown`, at most one registration per handler; exactly one after `register` or `start` |
| LuckyReact.RegisteredOnceFromStart | index.js:151-157 | from process start, any calls ending with `register` leave exactly one listener per Turbolinks event |
| LuckyReact.RegistryAfterCalls | index.js:151-154 | after any calls, a name holds the value from the last `register` that mentioned it, else its original entry |
| LuckyReact.RegisterIdempotent | index.js:151-157 | registering the same hash twice equals registering it once, listeners included |

## Left out

- `console.log` in `mountComponent` is not modelled. It is a diagnostic with no effect on the outcome.
- `React.createElement` is only recorded as the props object it receives, as a
  `Render` event. Its special handling of `key` and `ref` is not modelled. Nor
  are React's mount-versus-update semantics.
- Mount.MountComponent: whether `ReactDOM.render` accepts a value or throws is
  an oracle (`Mount.Host.render`). React's rule for which values are component
  types is not modelled.
- Live DOM access is not modelled (`querySelectorAll`, `getAttribute`,
  `childNodes`, `innerHTML`). The document is immutable data, re-read by each
  pass. Within a pass, a render does not change the attributes or content of
  other nodes.
- A render replaces its target's content. The model describes the document
  between a render and its unmount only through `Document.AfterUnmount`, the
  state after a completed mount pass and an unmount pass.
- Document.AfterUnmount: only markers are updated. A marker's ancestors keep
  their old `innerHTML`, although the marker's content is gone, and the nodes
  inside a marker are kept, although its render removed them. No pass reads
  the content of a node that is not a marker. A marker nested inside another
  marker is kept too; in a browser the outer render removes it, so the next
  scan would not find it.
- `JSON.parse` is an oracle. The JSON grammar is not modelled.
- `eval` is an oracle. Arbitrary code evaluation cannot be modelled.
- `window` is a map of global names.
- Numbers are integers. `NaN`, `-0` and fractions (and their truthiness) are not modelled.
- Registry lookup sees only registered own properties. Names inherited from
  `Object.prototype` are not modelled. So `components["toString"]` is taken as
  `undefined`, and `register({ __proto__: … })` is taken as a plain entry.
- Js.Spread: a function, error or React element contributes no properties. For a
  function with enumerable static properties this is weaker than JavaScript.
  `JSON.parse` never produces such values.
- Js.Spread: a string is spread by Unicode scalar values, not by UTF-16 code
  units. So a payload string with characters outside the Basic Multilingual
  Plane spreads into fewer keys than in JavaScript (`{..."\u{1F600}"}` has keys "0"
  and "1" there, one key here).
- The unmount oracle is keyed by node position. Which component is mounted at
  a node, which decides what `componentWillUnmount` does, is left to the oracle.
- Turbolinks event dispatch is not modelled. Nor are the exceptions a listener
  throws during dispatch.
- The DOM's de-duplication of identical listeners is not modelled. Adding a
  listener adds one registration; removing one removes one.
- Binding.Start: "exactly one listener afterwards" is proved only from a state
  with at most one registration per handler. Without de-duplication, `start`
  after a doubled registration leaves it doubled.
- LuckyReact.Register: the same condition applies to its listener guarantee.
- LuckyReact.Register: the argument is taken to be a plain object (a map of
  names to values). `register()` and `register(null)`, where `Object.keys`
  throws a `TypeError` (index.js:152) before any entry is stored and before
  `start()` rebinds the listeners, are not modelled. Nor is a string argument,
  which would register its characters under "0", "1", ...
- LuckyReact.BindingStaysSingle: calling `setup()` directly is not among the
  calls. Without de-duplication, calling it twice would double the registrations
  (see Binding.SetupAloneAccumulates).
- Module import and export (`module.exports`) are not modelled.
