/** JSON Canvas documents: the parser's structural checks and the mutable document (src/application/json-canvas.ts). */
module JsonCanvas {
  import opened Options
  import opened Sequences
  import opened Json
  import JsText
  import Decimals

  const MAX_CANVAS_NODES := 2048
  const MAX_CANVAS_EDGES := 4096

  // ---------- what a well-formed node and edge is ----------

  function StringOf(o: Object, key: string): Option<string> {
    if key in o && o[key].JString? then Some(o[key].text) else None
  }

  /** Absent or a string; a missing key reads as undefined. */
  predicate OptionalString(o: Object, key: string) {
    key in o ==> o[key].JString?
  }

  predicate SafeIntegerAt(o: Object, key: string) {
    key in o && o[key].JNumber? && IsSafeInteger(o[key].number)
  }

  predicate NonEmptyString(o: Object, key: string) {
    key in o && o[key].JString? && o[key].text != ""
  }

  predicate IsType(o: Object, kind: string) {
    StringOf(o, "type") == Some(kind)
  }

  predicate GeometryOk(o: Object) {
    && SafeIntegerAt(o, "x") && SafeIntegerAt(o, "y") && SafeIntegerAt(o, "width") && SafeIntegerAt(o, "height")
    && o["width"].number >= 1.0 && o["height"].number >= 1.0
  }

  predicate SubpathOk(o: Object) {
    "subpath" in o ==> o["subpath"].JString? && JsText.StartsWith(o["subpath"].text, "#")
  }

  predicate IsBackgroundStyle(style: string) {
    style == "cover" || style == "ratio" || style == "repeat"
  }

  predicate BackgroundStyleOk(o: Object) {
    "backgroundStyle" in o ==> o["backgroundStyle"].JString? && IsBackgroundStyle(o["backgroundStyle"].text)
  }

  /** A supported type, with the fields that type requires. */
  predicate KindOk(o: Object) {
    || (IsType(o, "text") && StringOf(o, "text").Some?)
    || (IsType(o, "file") && StringOf(o, "file").Some? && SubpathOk(o))
    || (IsType(o, "link") && StringOf(o, "url").Some?)
    || (IsType(o, "group") && OptionalString(o, "label") && OptionalString(o, "background") && BackgroundStyleOk(o))
  }

  /** Section "Nodes" of the JSON Canvas Spec 1.0, as this parser reads it. */
  predicate NodeOk(o: Object) {
    NonEmptyString(o, "id") && GeometryOk(o) && OptionalString(o, "color") && KindOk(o)
  }

  predicate SideOk(o: Object, key: string) {
    key in o ==> o[key].JString? && IsSide(o[key].text)
  }

  predicate IsSide(side: string) {
    side == "top" || side == "right" || side == "bottom" || side == "left"
  }

  predicate EndOk(o: Object, key: string) {
    key in o ==> o[key].JString? && (o[key].text == "none" || o[key].text == "arrow")
  }

  /** Section "Edges" of the JSON Canvas Spec 1.0. */
  predicate EdgeOk(o: Object) {
    && NonEmptyString(o, "id") && NonEmptyString(o, "fromNode") && NonEmptyString(o, "toNode")
    && SideOk(o, "fromSide") && SideOk(o, "toSide") && EndOk(o, "fromEnd") && EndOk(o, "toEnd")
    && OptionalString(o, "color") && OptionalString(o, "label")
  }

  // ---------- the document ----------

  /** A document with its two lists; `other` holds every other key of the root. */
  datatype Canvas = Canvas(other: Object, nodes: seq<Object>, edges: seq<Object>)

  function IdOf(o: Object): Option<string> {
    StringOf(o, "id")
  }

  ghost predicate UniqueIds(entries: seq<Object>) {
    forall i, j :: 0 <= i < j < |entries| ==> IdOf(entries[i]) != IdOf(entries[j])
  }

  ghost predicate HasId(entries: seq<Object>, id: Option<string>) {
    exists e :: e in entries && IdOf(e) == id
  }

  ghost predicate Attached(nodes: seq<Object>, edge: Object) {
    HasId(nodes, StringOf(edge, "fromNode")) && HasId(nodes, StringOf(edge, "toNode"))
  }

  /** Everything the parser checks of the structure. */
  ghost predicate Passes(c: Canvas) {
    && |c.nodes| <= MAX_CANVAS_NODES && |c.edges| <= MAX_CANVAS_EDGES
    && (forall node :: node in c.nodes ==> NodeOk(node)) && UniqueIds(c.nodes)
    && (forall edge :: edge in c.edges ==> EdgeOk(edge) && Attached(c.nodes, edge)) && UniqueIds(c.edges)
  }

  // ---------- the parser ----------

  datatype Code = InvalidNode | UnsupportedNode | InvalidEdge | DuplicateId | MissingReference | InvalidArray | InvalidRoot | LimitExceeded

  datatype Diagnostic = Diagnostic(code: Code, list: string, index: nat, field: string)

  function Report(fails: bool, code: Code, list: string, index: nat, field: string): (r: seq<Diagnostic>)
    ensures r == [] <==> !fails
  {
    if fails then [Diagnostic(code, list, index, field)] else []
  }

  function ValidateNode(value: Json, index: nat): seq<Diagnostic> {
    if !value.JObject? then [Diagnostic(InvalidNode, "nodes", index, "")]
    else
      var o := value.fields;
      var required :=
        Report(!NonEmptyString(o, "id"), InvalidNode, "nodes", index, "id")
        + Report(!NonEmptyString(o, "type"), InvalidNode, "nodes", index, "type")
        + Report(!SafeIntegerAt(o, "x"), InvalidNode, "nodes", index, "x")
        + Report(!SafeIntegerAt(o, "y"), InvalidNode, "nodes", index, "y")
        + Report(!SafeIntegerAt(o, "width"), InvalidNode, "nodes", index, "width")
        + Report(!SafeIntegerAt(o, "height"), InvalidNode, "nodes", index, "height");
      if required != [] then required
      else
        Report(o["width"].number < 1.0 || o["height"].number < 1.0, InvalidNode, "nodes", index, "")
        + Report(!OptionalString(o, "color"), InvalidNode, "nodes", index, "color")
        + ValidateKind(o, index)
  }

  function ValidateKind(o: Object, index: nat): seq<Diagnostic>
    requires NonEmptyString(o, "type")
  {
    Report(IsType(o, "text") && StringOf(o, "text").None?, InvalidNode, "nodes", index, "text")
    + Report(IsType(o, "file") && StringOf(o, "file").None?, InvalidNode, "nodes", index, "file")
    + Report(IsType(o, "file") && !SubpathOk(o), InvalidNode, "nodes", index, "subpath")
    + Report(IsType(o, "link") && StringOf(o, "url").None?, InvalidNode, "nodes", index, "url")
    + Report(IsType(o, "group") && !OptionalString(o, "label"), InvalidNode, "nodes", index, "label")
    + Report(IsType(o, "group") && !OptionalString(o, "background"), InvalidNode, "nodes", index, "background")
    + Report(IsType(o, "group") && !BackgroundStyleOk(o), InvalidNode, "nodes", index, "backgroundStyle")
    + Report(!IsType(o, "text") && !IsType(o, "file") && !IsType(o, "link") && !IsType(o, "group"), UnsupportedNode, "nodes", index, "type")
  }

  function ValidateEdge(value: Json, index: nat): seq<Diagnostic> {
    if !value.JObject? then [Diagnostic(InvalidEdge, "edges", index, "")]
    else
      var o := value.fields;
      Report(!NonEmptyString(o, "id"), InvalidEdge, "edges", index, "id")
      + Report(!NonEmptyString(o, "fromNode"), InvalidEdge, "edges", index, "fromNode")
      + Report(!NonEmptyString(o, "toNode"), InvalidEdge, "edges", index, "toNode")
      + Report(!SideOk(o, "fromSide"), InvalidEdge, "edges", index, "fromSide")
      + Report(!SideOk(o, "toSide"), InvalidEdge, "edges", index, "toSide")
      + Report(!EndOk(o, "fromEnd"), InvalidEdge, "edges", index, "fromEnd")
      + Report(!EndOk(o, "toEnd"), InvalidEdge, "edges", index, "toEnd")
      + Report(!OptionalString(o, "color"), InvalidEdge, "edges", index, "color")
      + Report(!OptionalString(o, "label"), InvalidEdge, "edges", index, "label")
  }

  lemma NodeReported(value: Json, index: nat)
    ensures ValidateNode(value, index) == [] <==> value.JObject? && NodeOk(value.fields)
  {
    if value.JObject? && NonEmptyString(value.fields, "type") {
      KindReported(value.fields, index);
    }
    hide ValidateKind, KindOk, IsSafeInteger;
  }

  lemma KindReported(o: Object, index: nat)
    requires NonEmptyString(o, "type")
    ensures ValidateKind(o, index) == [] <==> KindOk(o)
  {
    hide SubpathOk, BackgroundStyleOk;
  }

  lemma EdgeReported(value: Json, index: nat)
    ensures ValidateEdge(value, index) == [] <==> value.JObject? && EdgeOk(value.fields)
  {
  }

  /** The string ids among some values. */
  function IdsOf(values: seq<Json>): set<string> {
    set value | value in values && value.JObject? && IdOf(value.fields).Some? :: IdOf(value.fields).value
  }

  predicate Repeats(value: Json, earlier: set<string>) {
    value.JObject? && IdOf(value.fields).Some? && IdOf(value.fields).value in earlier
  }

  predicate Dangles(value: Json, key: string, nodeIds: set<string>) {
    value.JObject? && StringOf(value.fields, key).Some? && StringOf(value.fields, key).value !in nodeIds
  }

  function NodesReport(nodes: seq<Json>, n: nat): seq<Diagnostic>
    requires n <= |nodes|
  {
    if n == 0 then []
    else
      NodesReport(nodes, n - 1) + ValidateNode(nodes[n - 1], n - 1)
      + Report(Repeats(nodes[n - 1], IdsOf(nodes[..n - 1])), DuplicateId, "nodes", n - 1, "id")
  }

  function EdgesReport(edges: seq<Json>, n: nat, nodeIds: set<string>): seq<Diagnostic>
    requires n <= |edges|
  {
    if n == 0 then []
    else
      EdgesReport(edges, n - 1, nodeIds) + ValidateEdge(edges[n - 1], n - 1)
      + Report(Repeats(edges[n - 1], IdsOf(edges[..n - 1])), DuplicateId, "edges", n - 1, "id")
      + Report(Dangles(edges[n - 1], "fromNode", nodeIds), MissingReference, "edges", n - 1, "fromNode")
      + Report(Dangles(edges[n - 1], "toNode", nodeIds), MissingReference, "edges", n - 1, "toNode")
  }

  function ListOf(root: Object, key: string): seq<Json> {
    if key in root && root[key].JArray? then root[key].items else []
  }

  function RootReport(root: Object): seq<Diagnostic> {
    Report("nodes" in root && !root["nodes"].JArray?, InvalidArray, "nodes", 0, "")
    + Report("edges" in root && !root["edges"].JArray?, InvalidArray, "edges", 0, "")
    + Report(|ListOf(root, "nodes")| > MAX_CANVAS_NODES, LimitExceeded, "nodes", 0, "")
    + Report(|ListOf(root, "edges")| > MAX_CANVAS_EDGES, LimitExceeded, "edges", 0, "")
  }

  function Diagnostics(parsed: Json): seq<Diagnostic> {
    if !parsed.JObject? then [Diagnostic(InvalidRoot, "", 0, "")]
    else
      var nodes, edges := ListOf(parsed.fields, "nodes"), ListOf(parsed.fields, "edges");
      RootReport(parsed.fields) + NodesReport(nodes, |nodes|) + EdgesReport(edges, |edges|, IdsOf(nodes))
  }

  /** The tree with both lists present; unknown keys stay. */
  function Completed(root: Object): Object {
    root["nodes" := JArray(ListOf(root, "nodes"))]["edges" := JArray(ListOf(root, "edges"))]
  }

  /** Every key of the root stays as it is, but the two lists are there in any case. */
  lemma CompletedKeeps(root: Object, key: string)
    ensures Get(Completed(root), key) ==
      if key in {"nodes", "edges"} && (Get(root, key).None? || !root[key].JArray?) then Some(JArray([])) else Get(root, key)
  {
  }

  method ParseJsonCanvas(parsed: Json) returns (document: Option<Object>, diagnostics: seq<Diagnostic>)
    ensures diagnostics == Diagnostics(parsed)
    ensures document == if parsed.JObject? then Some(Completed(parsed.fields)) else None
  {
    if !parsed.JObject? {
      return None, [Diagnostic(InvalidRoot, "", 0, "")];
    }
    hide ValidateNode, ValidateEdge, RootReport, Dangles;
    var root := parsed.fields;
    diagnostics := RootReport(root);
    var nodes, edges := ListOf(root, "nodes"), ListOf(root, "edges");
    ghost var start := diagnostics;
    var nodeIds: set<string> := {};
    for index := 0 to |nodes|
      invariant diagnostics == start + NodesReport(nodes, index) && nodeIds == IdsOf(nodes[..index])
    {
      IdsOfNext(nodes, index);
      Associative(start, NodesReport(nodes, index), ValidateNode(nodes[index], index));
      Associative(start, NodesReport(nodes, index) + ValidateNode(nodes[index], index),
                  Report(Repeats(nodes[index], nodeIds), DuplicateId, "nodes", index, "id"));
      diagnostics := diagnostics + ValidateNode(nodes[index], index);
      if nodes[index].JObject? && IdOf(nodes[index].fields).Some? {
        var id := IdOf(nodes[index].fields).value;
        diagnostics := diagnostics + Report(id in nodeIds, DuplicateId, "nodes", index, "id");
        nodeIds := nodeIds + {id};
      }
    }
    assert nodes[..|nodes|] == nodes;
    diagnostics := CheckEdges(edges, nodeIds, diagnostics);
    document := Some(Completed(root));
  }

  /** The second loop of the parser. */
  method CheckEdges(edges: seq<Json>, nodeIds: set<string>, earlier: seq<Diagnostic>) returns (diagnostics: seq<Diagnostic>)
    ensures diagnostics == earlier + EdgesReport(edges, |edges|, nodeIds)
  {
    hide ValidateEdge;
    diagnostics := earlier;
    var edgeIds: set<string> := {};
    for index := 0 to |edges|
      invariant diagnostics == earlier + EdgesReport(edges, index, nodeIds) && edgeIds == IdsOf(edges[..index])
    {
      IdsOfNext(edges, index);
      var report := ValidateEdge(edges[index], index);
      var repeated := Report(Repeats(edges[index], edgeIds), DuplicateId, "edges", index, "id");
      if edges[index].JObject? && IdOf(edges[index].fields).Some? {
        edgeIds := edgeIds + {IdOf(edges[index].fields).value};
      }
      var missing := Report(Dangles(edges[index], "fromNode", nodeIds), MissingReference, "edges", index, "fromNode")
                     + Report(Dangles(edges[index], "toNode", nodeIds), MissingReference, "edges", index, "toNode");
      ReportsJoin(earlier, EdgesReport(edges, index, nodeIds), report, repeated,
                  Report(Dangles(edges[index], "fromNode", nodeIds), MissingReference, "edges", index, "fromNode"),
                  Report(Dangles(edges[index], "toNode", nodeIds), MissingReference, "edges", index, "toNode"));
      diagnostics := diagnostics + report + repeated + missing;
    }
  }

  lemma ReportsJoin<T>(a: seq<T>, b: seq<T>, c: seq<T>, d: seq<T>, e: seq<T>, f: seq<T>)
    ensures a + b + c + d + (e + f) == a + (b + c + d + e + f)
  {
  }

  lemma IdsOfNext(values: seq<Json>, n: nat)
    requires n < |values|
    ensures IdsOf(values[..n + 1])
         == IdsOf(values[..n]) + if values[n].JObject? && IdOf(values[n].fields).Some? then {IdOf(values[n].fields).value} else {}
  {
    assert values[..n + 1] == values[..n] + [values[n]];
    assert forall v :: v in values[..n + 1] <==> v in values[..n] || v == values[n];
    hide IdOf;
  }

  // ---------- no diagnostics means that the structure passes ----------

  predicate AllObjects(values: seq<Json>) {
    forall value :: value in values ==> value.JObject?
  }

  function Objects(values: seq<Json>): (r: seq<Object>)
    ensures |r| == |values|
    ensures forall i :: 0 <= i < |r| && values[i].JObject? ==> r[i] == values[i].fields
  {
    seq(|values|, i requires 0 <= i < |values| => if values[i].JObject? then values[i].fields else map[])
  }

  /** The parsed document as the mutable class holds it. */
  function CanvasOf(root: Object): Canvas {
    Canvas(root - {"nodes", "edges"}, Objects(ListOf(root, "nodes")), Objects(ListOf(root, "edges")))
  }

  ghost predicate RootOk(root: Object) {
    && ("nodes" in root ==> root["nodes"].JArray?) && ("edges" in root ==> root["edges"].JArray?)
    && AllObjects(ListOf(root, "nodes")) && AllObjects(ListOf(root, "edges"))
  }

  ghost predicate NodeFine(nodes: seq<Json>, i: nat)
    requires i < |nodes|
  {
    nodes[i].JObject? && NodeOk(nodes[i].fields) && !Repeats(nodes[i], IdsOf(nodes[..i]))
  }

  ghost predicate EdgeFine(edges: seq<Json>, i: nat, nodeIds: set<string>)
    requires i < |edges|
  {
    && edges[i].JObject? && EdgeOk(edges[i].fields) && !Repeats(edges[i], IdsOf(edges[..i]))
    && !Dangles(edges[i], "fromNode", nodeIds) && !Dangles(edges[i], "toNode", nodeIds)
  }

  lemma {:induction false} NodesFine(nodes: seq<Json>, n: nat)
    requires n <= |nodes|
    ensures NodesReport(nodes, n) == [] <==> forall i: nat :: i < n ==> NodeFine(nodes, i)
    decreases n
  {
    if n > 0 {
      NodesFine(nodes, n - 1);
      NodeReported(nodes[n - 1], n - 1);
      hide ValidateNode, NodeOk, Repeats;
      assert (forall i: nat :: i < n ==> NodeFine(nodes, i)) <==> NodeFine(nodes, n - 1) && forall i: nat :: i < n - 1 ==> NodeFine(nodes, i);
    }
  }

  lemma {:induction false} EdgesFine(edges: seq<Json>, n: nat, nodeIds: set<string>)
    requires n <= |edges|
    ensures EdgesReport(edges, n, nodeIds) == [] <==> forall i: nat :: i < n ==> EdgeFine(edges, i, nodeIds)
    decreases n
  {
    if n > 0 {
      EdgesFine(edges, n - 1, nodeIds);
      EdgeReported(edges[n - 1], n - 1);
      hide ValidateEdge, EdgeOk, Repeats, Dangles;
      assert (forall i: nat :: i < n ==> EdgeFine(edges, i, nodeIds))
        <==> EdgeFine(edges, n - 1, nodeIds) && forall i: nat :: i < n - 1 ==> EdgeFine(edges, i, nodeIds);
    }
  }

  ghost predicate NoRepeat(values: seq<Json>) {
    forall i: nat :: i < |values| ==> !Repeats(values[i], IdsOf(values[..i]))
  }

  ghost predicate AllHaveIds(values: seq<Json>) {
    forall i: nat :: i < |values| ==> values[i].JObject? && NonEmptyString(values[i].fields, "id")
  }

  ghost predicate AllNodesFine(nodes: seq<Json>) {
    forall i: nat :: i < |nodes| ==> NodeFine(nodes, i)
  }

  ghost predicate AllEdgesFine(edges: seq<Json>, nodeIds: set<string>) {
    forall i: nat :: i < |edges| ==> EdgeFine(edges, i, nodeIds)
  }

  /** Ids that are all present repeat nowhere exactly when they are unique. */
  lemma {:induction false} NoRepeatIsUnique(values: seq<Json>)
    requires AllHaveIds(values)
    ensures NoRepeat(values) <==> UniqueIds(Objects(values))
  {
    var o := Objects(values);
    if NoRepeat(values) {
      forall i, j | 0 <= i < j < |o| ensures IdOf(o[i]) != IdOf(o[j]) {
        assert values[..j][i] == values[i] && values[i] in values[..j];
        assert !Repeats(values[j], IdsOf(values[..j]));
      }
    }
    if UniqueIds(o) {
      forall j: nat | j < |values| ensures !Repeats(values[j], IdsOf(values[..j])) {
        forall v | v in values[..j] ensures IdOf(v.fields) != IdOf(values[j].fields) {
          var i :| 0 <= i < j && values[..j][i] == v;
          assert IdOf(o[i]) != IdOf(o[j]);
        }
      }
    }
  }

  ghost predicate AllNodesOk(nodes: seq<Object>) {
    forall o :: o in nodes ==> NodeOk(o)
  }

  ghost predicate AllEdgesOk(edges: seq<Object>, nodes: seq<Object>) {
    forall o :: o in edges ==> EdgeOk(o) && Attached(nodes, o)
  }

  lemma {:induction false} NodesPass(nodes: seq<Json>)
    ensures AllNodesFine(nodes) <==> AllObjects(nodes) && AllNodesOk(Objects(nodes)) && UniqueIds(Objects(nodes))
  {
    hide GeometryOk, KindOk, UniqueIds, Repeats, NonEmptyString, OptionalString;
    var o := Objects(nodes);
    if AllNodesFine(nodes) {
      forall i: nat | i < |nodes| ensures nodes[i].JObject? && NodeOk(nodes[i].fields) && !Repeats(nodes[i], IdsOf(nodes[..i])) {
        assert NodeFine(nodes, i);
      }
      NoRepeatIsUnique(nodes);
    }
    if AllObjects(nodes) && AllNodesOk(o) && UniqueIds(o) {
      forall i: nat | i < |nodes| ensures nodes[i].JObject? && NodeOk(nodes[i].fields) {
        assert nodes[i] in nodes && o[i] in o;
      }
      NoRepeatIsUnique(nodes);
    }
  }

  lemma {:induction false} IdIsKnown(nodes: seq<Json>, id: string)
    requires AllObjects(nodes)
    ensures id in IdsOf(nodes) <==> HasId(Objects(nodes), Some(id))
  {
    var o := Objects(nodes);
    if id in IdsOf(nodes) {
      var v :| v in nodes && v.JObject? && IdOf(v.fields) == Some(id);
      var i :| 0 <= i < |nodes| && nodes[i] == v;
      assert o[i] in o;
    }
    if HasId(o, Some(id)) {
      var x :| x in o && IdOf(x) == Some(id);
      var i :| 0 <= i < |o| && o[i] == x;
      assert nodes[i] in nodes;
    }
  }

  lemma {:induction false} EdgeAttached(nodes: seq<Json>, edge: Object)
    requires AllObjects(nodes) && NonEmptyString(edge, "fromNode") && NonEmptyString(edge, "toNode")
    ensures Attached(Objects(nodes), edge)
      <==> !Dangles(JObject(edge), "fromNode", IdsOf(nodes)) && !Dangles(JObject(edge), "toNode", IdsOf(nodes))
  {
    IdIsKnown(nodes, edge["fromNode"].text);
    IdIsKnown(nodes, edge["toNode"].text);
    hide IdsOf, Objects, HasId;
  }

  lemma {:induction false} EdgesPass(edges: seq<Json>, nodes: seq<Json>)
    requires AllObjects(nodes)
    ensures AllEdgesFine(edges, IdsOf(nodes))
      <==> AllObjects(edges) && AllEdgesOk(Objects(edges), Objects(nodes)) && UniqueIds(Objects(edges))
  {
    hide UniqueIds, Repeats, SideOk, EndOk, OptionalString, IdsOf, HasId, Attached, Dangles, NonEmptyString;
    var o, ids := Objects(edges), IdsOf(nodes);
    if AllEdgesFine(edges, ids) {
      forall i: nat | i < |edges| ensures edges[i].JObject? && EdgeOk(edges[i].fields) && !Repeats(edges[i], IdsOf(edges[..i])) && Attached(Objects(nodes), edges[i].fields) {
        assert EdgeFine(edges, i, ids);
        EdgeAttached(nodes, edges[i].fields);
      }
      NoRepeatIsUnique(edges);
    }
    if AllObjects(edges) && AllEdgesOk(o, Objects(nodes)) && UniqueIds(o) {
      forall i: nat | i < |edges|
        ensures edges[i].JObject? && EdgeOk(edges[i].fields) && !Dangles(edges[i], "fromNode", ids) && !Dangles(edges[i], "toNode", ids)
      {
        assert edges[i] in edges && o[i] in o && o[i] == edges[i].fields;
        EdgeAttached(nodes, edges[i].fields);
      }
      NoRepeatIsUnique(edges);
    }
  }

  lemma RootReported(root: Object)
    ensures RootReport(root) == [] <==>
      && ("nodes" in root ==> root["nodes"].JArray?) && ("edges" in root ==> root["edges"].JArray?)
      && |ListOf(root, "nodes")| <= MAX_CANVAS_NODES && |ListOf(root, "edges")| <= MAX_CANVAS_EDGES
  {
  }

  lemma ConcatEmpty<T>(a: seq<T>, b: seq<T>)
    ensures a + b == [] <==> a == [] && b == []
  {
  }

  lemma SoundMeans(c: Canvas)
    ensures Passes(c) <==>
      && |c.nodes| <= MAX_CANVAS_NODES && |c.edges| <= MAX_CANVAS_EDGES
      && AllNodesOk(c.nodes) && UniqueIds(c.nodes) && AllEdgesOk(c.edges, c.nodes) && UniqueIds(c.edges)
  {
    hide NodeOk, EdgeOk, UniqueIds, Attached;
  }

  /** The parser reports nothing exactly for the documents whose structure is sound. */
  lemma {:induction false} ReadyIffSound(parsed: Json)
    ensures Diagnostics(parsed) == [] <==> parsed.JObject? && RootOk(parsed.fields) && Passes(CanvasOf(parsed.fields))
  {
    if parsed.JObject? {
      var root := parsed.fields;
      var nodes, edges := ListOf(root, "nodes"), ListOf(root, "edges");
      hide NodesReport, EdgesReport, IdsOf, Objects, UniqueIds, Attached, NodeOk, EdgeOk, NodeFine, EdgeFine, RootReport, AllObjects, ListOf,
           AllNodesOk, AllEdgesOk;
      SoundMeans(CanvasOf(root));
      RootReported(root);
      NodesFine(nodes, |nodes|);
      EdgesFine(edges, |edges|, IdsOf(nodes));
      NodesPass(nodes);
      if AllObjects(nodes) {
        EdgesPass(edges, nodes);
      }
      ConcatEmpty(RootReport(root), NodesReport(nodes, |nodes|));
      ConcatEmpty(RootReport(root) + NodesReport(nodes, |nodes|), EdgesReport(edges, |edges|, IdsOf(nodes)));
    }
  }

  // ---------- a fresh id ----------

  function Ids(entries: seq<Object>): set<string> {
    set entry | entry in entries && IdOf(entry).Some? :: IdOf(entry).value
  }

  function UsedIds(c: Canvas): set<string> {
    Ids(c.nodes) + Ids(c.edges)
  }

  function Numbered(prefix: string, index: nat): string {
    prefix + "-" + Decimals.Decimal(index)
  }

  /** The first index from `index` on whose id is not used. */
  function FreeIndex(used: set<string>, prefix: string, index: nat): nat
    decreases |used|
  {
    if Numbered(prefix, index) in used then FreeIndex(used - {Numbered(prefix, index)}, prefix, index + 1) else index
  }

  function NextIdOf(c: Canvas, prefix: string): string {
    Numbered(prefix, FreeIndex(UsedIds(c), prefix, 1))
  }

  lemma NumberedInjective(prefix: string, i: nat, j: nat)
    ensures Numbered(prefix, i) == Numbered(prefix, j) <==> i == j
  {
    if Numbered(prefix, i) == Numbered(prefix, j) {
      DropHead(prefix + "-", Decimals.Decimal(i));
      DropHead(prefix + "-", Decimals.Decimal(j));
      Decimals.DecimalInjective(i, j);
    }
  }

  /** The index is free, all before it are taken, and so it lies within the number of ids used. */
  lemma {:induction false} FreeIndexIsFirst(used: set<string>, prefix: string, index: nat)
    ensures var k := FreeIndex(used, prefix, index);
            && index <= k <= index + |used| && Numbered(prefix, k) !in used
            && forall j: nat :: index <= j < k ==> Numbered(prefix, j) in used
    decreases |used|
  {
    var id := Numbered(prefix, index);
    if id in used {
      FreeIndexIsFirst(used - {id}, prefix, index + 1);
      hide Numbered;
      NumberedInjective(prefix, FreeIndex(used, prefix, index), index);
    }
  }

  lemma {:induction false} IdsFit(entries: seq<Object>)
    ensures |Ids(entries)| <= |entries|
    decreases |entries|
  {
    if entries != [] {
      var last, rest := entries[|entries| - 1], entries[..|entries| - 1];
      assert entries == rest + [last];
      assert Ids(entries) == Ids(rest) + if IdOf(last).Some? then {IdOf(last).value} else {};
      IdsFit(rest);
    }
  }

  lemma {:induction false} UnionFits<T>(a: set<T>, b: set<T>)
    ensures |a + b| <= |a| + |b|
  {
    assert |a + b| == |a| + |b| - |a * b|;
  }

  /** A fresh id is found within one try more than there are nodes and edges. */
  lemma {:induction false} NextIdIsFresh(c: Canvas, prefix: string)
    ensures NextIdOf(c, prefix) !in UsedIds(c) && NextIdOf(c, prefix) != ""
    ensures 1 <= FreeIndex(UsedIds(c), prefix, 1) <= |c.nodes| + |c.edges| + 1
  {
    FreeIndexIsFirst(UsedIds(c), prefix, 1);
    IdsFit(c.nodes);
    IdsFit(c.edges);
    UnionFits(Ids(c.nodes), Ids(c.edges));
  }

  // ---------- the operations ----------

  datatype Geometry = Geometry(x: real, y: real, width: real, height: real)

  datatype Op =
    | AddNode(node: Object)
    | AddNew(kind: string, content: string, geometry: Geometry, newId: Option<string>)
    | MoveNode(id: string, x: real, y: real)
    | ResizeNode(id: string, width: real, height: real)
    | Edit(id: string, kind: string, content: string)
    | EditFile(id: string, file: string, subpath: Option<string>)
    | EditEdgeLabel(id: string, caption: string)
    | AddEdge(edge: Object)
    | Connect(source: string, target: string, fromSide: string, toSide: string, newId: Option<string>)
    | RemoveNode(id: string)
    | RemoveEdge(id: string)

  /** Which field of a node holds its content. */
  function ContentKey(kind: string): string {
    if kind == "text" then "text" else if kind == "file" then "file" else if kind == "link" then "url" else "label"
  }

  predicate IsKind(kind: string) {
    kind == "text" || kind == "file" || kind == "link" || kind == "group"
  }

  function NewNode(id: string, kind: string, g: Geometry, content: string): Object {
    map["id" := JString(id), "type" := JString(kind), "x" := JNumber(g.x), "y" := JNumber(g.y),
        "width" := JNumber(g.width), "height" := JNumber(g.height)][ContentKey(kind) := JString(content)]
  }

  function NewEdge(id: string, source: string, target: string, fromSide: string, toSide: string): Object {
    map["id" := JString(id), "fromNode" := JString(source), "toNode" := JString(target),
        "fromSide" := JString(fromSide), "toSide" := JString(toSide)]
  }

  /** The first entry with the id, or the length. */
  function IndexOf(entries: seq<Object>, id: string): (i: nat)
    ensures i <= |entries|
    ensures i < |entries| ==> IdOf(entries[i]) == Some(id)
    ensures forall j :: 0 <= j < i ==> IdOf(entries[j]) != Some(id)
  {
    if entries == [] || IdOf(entries[0]) == Some(id) then 0 else 1 + IndexOf(entries[1..], id)
  }

  predicate Taken(entries: seq<Object>, value: Option<Json>) {
    exists entry :: entry in entries && Get(entry, "id") == value
  }

  function PushNode(c: Canvas, node: Object): Option<Canvas> {
    if |c.nodes| >= MAX_CANVAS_NODES || Taken(c.nodes, Get(node, "id")) then None
    else Some(c.(nodes := c.nodes + [node]))
  }

  function PushEdge(c: Canvas, edge: Object): Option<Canvas> {
    if |c.edges| >= MAX_CANVAS_EDGES || Taken(c.edges, Get(edge, "id")) then None
    else if !Taken(c.nodes, Get(edge, "fromNode")) || !Taken(c.nodes, Get(edge, "toNode")) then None
    else Some(c.(edges := c.edges + [edge]))
  }

  function WithNode(c: Canvas, i: nat, node: Object): Canvas
    requires i < |c.nodes|
  {
    c.(nodes := c.nodes[i := node])
  }

  function Detached(edges: seq<Object>, id: string): seq<Object> {
    if edges == [] then []
    else (if StringOf(edges[0], "fromNode") != Some(id) && StringOf(edges[0], "toNode") != Some(id) then [edges[0]] else [])
         + Detached(edges[1..], id)
  }

  function WithoutId(entries: seq<Object>, id: string): seq<Object> {
    if entries == [] then [] else (if IdOf(entries[0]) != Some(id) then [entries[0]] else []) + WithoutId(entries[1..], id)
  }

  function EditedFile(node: Object, file: string, subpath: Option<string>): Object {
    var renamed := node["file" := JString(file)];
    if subpath.None? then renamed - {"subpath"} else renamed["subpath" := JString(subpath.value)]
  }

  /** The document after one operation; None where the original throws and changes nothing. */
  function Apply(c: Canvas, op: Op): Option<Canvas> {
    match op
    case AddNode(node) => PushNode(c, node)
    case AddNew(kind, content, g, newId) =>
      PushNode(c, NewNode(if newId.Some? then newId.value else NextIdOf(c, kind), kind, g, content))
    case MoveNode(id, x, y) =>
      var i := IndexOf(c.nodes, id);
      if i == |c.nodes| || !IsSafeInteger(x) || !IsSafeInteger(y) then None
      else Some(WithNode(c, i, c.nodes[i]["x" := JNumber(x)]["y" := JNumber(y)]))
    case ResizeNode(id, width, height) =>
      var i := IndexOf(c.nodes, id);
      if i == |c.nodes| || !IsSafeInteger(width) || !IsSafeInteger(height) || width < 1.0 || height < 1.0 then None
      else Some(WithNode(c, i, c.nodes[i]["width" := JNumber(width)]["height" := JNumber(height)]))
    case Edit(id, kind, content) =>
      var i := IndexOf(c.nodes, id);
      if i == |c.nodes| || !IsType(c.nodes[i], kind) then None
      else Some(WithNode(c, i, c.nodes[i][ContentKey(kind) := JString(content)]))
    case EditFile(id, file, subpath) =>
      var i := IndexOf(c.nodes, id);
      if i == |c.nodes| || !IsType(c.nodes[i], "file") then None
      else Some(WithNode(c, i, EditedFile(c.nodes[i], file, subpath)))
    case EditEdgeLabel(id, caption) =>
      var i := IndexOf(c.edges, id);
      if i == |c.edges| then None
      else Some(c.(edges := c.edges[i := Labelled(c.edges[i], caption)]))
    case AddEdge(edge) => PushEdge(c, edge)
    case Connect(source, target, fromSide, toSide, newId) =>
      PushEdge(c, NewEdge(if newId.Some? then newId.value else NextIdOf(c, "edge"), source, target, fromSide, toSide))
    case RemoveNode(id) =>
      var i := IndexOf(c.nodes, id);
      if i == |c.nodes| then Some(c)
      else Some(c.(nodes := c.nodes[..i] + c.nodes[i + 1..], edges := Detached(c.edges, id)))
    case RemoveEdge(id) => Some(c.(edges := WithoutId(c.edges, id)))
  }

  predicate GeometryFine(g: Geometry) {
    IsSafeInteger(g.x) && IsSafeInteger(g.y) && IsSafeInteger(g.width) && IsSafeInteger(g.height) && g.width >= 1.0 && g.height >= 1.0
  }

  /** What a caller has to see to; the other operations check their arguments themselves. */
  predicate OpOk(op: Op) {
    match op
    case AddNode(node) => NodeOk(node)
    case AddNew(kind, _, g, newId) => GeometryFine(g) && newId != Some("")
    case EditFile(_, _, subpath) => subpath.Some? ==> JsText.StartsWith(subpath.value, "#")
    case AddEdge(edge) => EdgeOk(edge)
    case Connect(_, _, fromSide, toSide, newId) => IsSide(fromSide) && IsSide(toSide) && newId != Some("")
    case _ => true
  }

  /** The four `add` methods and the three `edit` methods each name their own kind. */
  predicate KindNamed(op: Op) {
    (op.AddNew? ==> IsKind(op.kind)) && (op.Edit? ==> IsKind(op.kind) && op.kind != "file")
  }

  // ---------- the operations keep the structure ----------

  lemma {:induction false} PushNodePasses(c: Canvas, node: Object)
    requires Passes(c) && PushNode(c, node).Some?
    ensures Passes(PushNode(c, node).value) <==> NodeOk(node)
  {
    var nodes := c.nodes + [node];
    assert node in nodes;
    hide KindOk, GeometryOk, EdgeOk, OptionalString;
    if NodeOk(node) {
      forall i, j | 0 <= i < j < |nodes| ensures IdOf(nodes[i]) != IdOf(nodes[j]) {
        if j == |c.nodes| {
          assert c.nodes[i] in c.nodes && NodeOk(c.nodes[i]);
          assert Get(c.nodes[i], "id") != Get(node, "id");
        }
      }
      MoreNodes(c.nodes, node);
    }
  }

  lemma MoreNodes(nodes: seq<Object>, node: Object)
    ensures forall edge :: Attached(nodes, edge) ==> Attached(nodes + [node], edge)
  {
    assert forall e :: e in nodes ==> e in nodes + [node];
  }

  lemma {:induction false} PushEdgePasses(c: Canvas, edge: Object)
    requires Passes(c) && PushEdge(c, edge).Some?
    ensures Passes(PushEdge(c, edge).value) <==> EdgeOk(edge)
  {
    var edges := c.edges + [edge];
    assert edge in edges;
    hide NodeOk, SideOk, EndOk, OptionalString;
    if EdgeOk(edge) {
      forall i, j | 0 <= i < j < |edges| ensures IdOf(edges[i]) != IdOf(edges[j]) {
        if j == |c.edges| {
          assert c.edges[i] in c.edges && EdgeOk(c.edges[i]);
          assert Get(c.edges[i], "id") != Get(edge, "id");
        }
      }
      assert Attached(c.nodes, edge);
    }
  }

  /** Changing one node but not its id is sound exactly when the changed node is. */
  lemma {:induction false} WithNodePasses(c: Canvas, i: nat, node: Object)
    requires Passes(c) && i < |c.nodes| && IdOf(node) == IdOf(c.nodes[i])
    ensures Passes(WithNode(c, i, node)) <==> NodeOk(node)
  {
    var nodes := c.nodes[i := node];
    assert nodes[i] in nodes;
    hide NodeOk, EdgeOk;
    assert forall j :: 0 <= j < |nodes| ==> IdOf(nodes[j]) == IdOf(c.nodes[j]);
    SameIdsAttach(c.nodes, nodes);
  }

  lemma {:induction false} SameIdsAttach(a: seq<Object>, b: seq<Object>)
    requires |a| == |b| && forall j :: 0 <= j < |a| ==> IdOf(a[j]) == IdOf(b[j])
    ensures forall edge :: Attached(a, edge) ==> Attached(b, edge)
  {
    forall id | HasId(a, id) ensures HasId(b, id) {
      var e :| e in a && IdOf(e) == id;
      var j :| 0 <= j < |a| && a[j] == e;
      assert b[j] in b;
    }
  }

  lemma {:induction false} WithEdgePasses(c: Canvas, i: nat, edge: Object)
    requires Passes(c) && i < |c.edges| && IdOf(edge) == IdOf(c.edges[i]) && EdgeOk(edge) && Attached(c.nodes, edge)
    ensures Passes(c.(edges := c.edges[i := edge]))
  {
    var edges := c.edges[i := edge];
    hide NodeOk, EdgeOk, Attached;
    assert forall j :: 0 <= j < |edges| ==> IdOf(edges[j]) == IdOf(c.edges[j]);
  }

  lemma {:induction false} WithoutMembers(entries: seq<Object>, id: string)
    ensures |WithoutId(entries, id)| <= |entries|
    ensures forall e :: e in WithoutId(entries, id) <==> e in entries && IdOf(e) != Some(id)
    ensures UniqueIds(entries) ==> UniqueIds(WithoutId(entries, id))
    decreases |entries|
  {
    if entries != [] {
      var rest := entries[1..];
      WithoutMembers(rest, id);
      HeadTail(entries);
      if UniqueIds(entries) {
        RestUnique(entries);
        KeepUnique(entries[0], rest, WithoutId(rest, id), IdOf(entries[0]) != Some(id));
      }
    }
  }

  lemma RestUnique(entries: seq<Object>)
    requires entries != [] && UniqueIds(entries)
    ensures UniqueIds(entries[1..]) && forall e :: e in entries[1..] ==> IdOf(e) != IdOf(entries[0])
  {
    forall e | e in entries[1..] ensures IdOf(e) != IdOf(entries[0]) {
      var i :| 0 <= i < |entries[1..]| && entries[1..][i] == e;
      assert entries[i + 1] == e;
    }
  }

  lemma KeepUnique(head: Object, rest: seq<Object>, kept: seq<Object>, keep: bool)
    requires UniqueIds(kept) && (forall e :: e in kept ==> e in rest) && forall e :: e in rest ==> IdOf(e) != IdOf(head)
    ensures UniqueIds((if keep then [head] else []) + kept)
  {
    if keep {
      var r := [head] + kept;
      forall i, j | 0 <= i < j < |r| ensures IdOf(r[i]) != IdOf(r[j]) {
        assert r[j] == kept[j - 1] && kept[j - 1] in kept;
      }
    } else {
      assert [] + kept == kept;
    }
  }

  lemma {:induction false} DetachedMembers(edges: seq<Object>, id: string)
    ensures |Detached(edges, id)| <= |edges|
    ensures forall e :: e in Detached(edges, id) <==> e in edges && StringOf(e, "fromNode") != Some(id) && StringOf(e, "toNode") != Some(id)
    ensures UniqueIds(edges) ==> UniqueIds(Detached(edges, id))
    decreases |edges|
  {
    if edges != [] {
      var rest := edges[1..];
      DetachedMembers(rest, id);
      HeadTail(edges);
      if UniqueIds(edges) {
        RestUnique(edges);
        KeepUnique(edges[0], rest, Detached(rest, id), StringOf(edges[0], "fromNode") != Some(id) && StringOf(edges[0], "toNode") != Some(id));
      }
    }
  }

  /** Removing a node takes its edges along, so no edge is left dangling. */
  lemma {:induction false} RemoveNodePasses(c: Canvas, id: string)
    requires Passes(c)
    ensures Passes(Apply(c, RemoveNode(id)).value)
    ensures !HasId(Apply(c, RemoveNode(id)).value.nodes, Some(id))
  {
    var i := IndexOf(c.nodes, id);
    hide NodeOk, EdgeOk;
    if i < |c.nodes| {
      var nodes, edges := c.nodes[..i] + c.nodes[i + 1..], Detached(c.edges, id);
      DetachedMembers(c.edges, id);
      NodesWithoutOne(c.nodes, i);
      forall edge | edge in edges ensures Attached(nodes, edge) {
        assert Attached(c.nodes, edge);
      }
    } else {
      forall e | e in c.nodes ensures IdOf(e) != Some(id) {
        var j :| 0 <= j < |c.nodes| && c.nodes[j] == e;
      }
    }
  }

  lemma {:induction false} NodesWithoutOne(nodes: seq<Object>, i: nat)
    requires UniqueIds(nodes) && i < |nodes|
    ensures var rest := nodes[..i] + nodes[i + 1..];
            && UniqueIds(rest) && (forall n :: n in rest ==> n in nodes)
            && !HasId(rest, IdOf(nodes[i]))
            && forall id :: HasId(nodes, id) && id != IdOf(nodes[i]) ==> HasId(rest, id)
  {
    var rest := nodes[..i] + nodes[i + 1..];
    assert forall j :: 0 <= j < |rest| ==> rest[j] == nodes[if j < i then j else j + 1];
    forall id | HasId(nodes, id) && id != IdOf(nodes[i]) ensures HasId(rest, id) {
      var e :| e in nodes && IdOf(e) == id;
      var j :| 0 <= j < |nodes| && nodes[j] == e;
      assert rest[if j < i then j else j - 1] == e;
    }
  }

  lemma {:induction false} RemoveEdgePasses(c: Canvas, id: string)
    requires Passes(c)
    ensures Passes(Apply(c, RemoveEdge(id)).value)
  {
    hide NodeOk, EdgeOk, Attached;
    WithoutMembers(c.edges, id);
  }

  lemma NewNodeOk(id: string, kind: string, g: Geometry, content: string)
    requires IsKind(kind)
    ensures NodeOk(NewNode(id, kind, g, content)) <==> GeometryFine(g) && id != ""
  {
    hide IsSafeInteger;
  }

  lemma NewEdgeOk(id: string, source: string, target: string, fromSide: string, toSide: string)
    ensures EdgeOk(NewEdge(id, source, target, fromSide, toSide))
      <==> id != "" && source != "" && target != "" && IsSide(fromSide) && IsSide(toSide)
  {
  }

  lemma EditedFileOk(node: Object, file: string, subpath: Option<string>)
    requires NodeOk(node) && IsType(node, "file")
    ensures NodeOk(EditedFile(node, file, subpath)) <==> (subpath.Some? ==> JsText.StartsWith(subpath.value, "#"))
    ensures IdOf(EditedFile(node, file, subpath)) == IdOf(node)
  {
    hide IsSafeInteger;
  }

  lemma EditedOk(node: Object, kind: string, content: string)
    requires NodeOk(node) && IsType(node, kind) && IsKind(kind)
    ensures var edited := node[ContentKey(kind) := JString(content)]; NodeOk(edited) && IdOf(edited) == IdOf(node)
  {
    hide IsSafeInteger;
  }

  lemma PlacedOk(node: Object, a: string, x: real, b: string, y: real)
    requires NodeOk(node) && IsSafeInteger(x) && IsSafeInteger(y)
    requires (a == "x" && b == "y") || (a == "width" && b == "height" && x >= 1.0 && y >= 1.0)
    ensures var placed := node[a := JNumber(x)][b := JNumber(y)]; NodeOk(placed) && IdOf(placed) == IdOf(node)
  {
    hide IsSafeInteger;
  }

  function Labelled(edge: Object, caption: string): Object {
    if caption != "" then edge["label" := JString(caption)] else edge - {"label"}
  }

  lemma LabelledOk(edge: Object, nodes: seq<Object>, caption: string)
    requires EdgeOk(edge) && Attached(nodes, edge)
    ensures EdgeOk(Labelled(edge, caption)) && Attached(nodes, Labelled(edge, caption)) && IdOf(Labelled(edge, caption)) == IdOf(edge)
  {
  }

  /** A sound document stays sound exactly when the operation's own argument is well formed. */
  lemma {:induction false} ApplyKeeps(c: Canvas, op: Op)
    requires Passes(c) && KindNamed(op) && Apply(c, op).Some?
    ensures Passes(Apply(c, op).value) <==> OpOk(op)
  {
    hide Passes, NodeOk, EdgeOk, Attached, IsSafeInteger, PushNode, PushEdge, NextIdOf, NewNode, NewEdge, EditedFile, Labelled;
    match op {
      case AddNode(node) => PushNodePasses(c, node);
      case AddNew(kind, content, g, newId) =>
        var id := if newId.Some? then newId.value else NextIdOf(c, kind);
        NextIdIsFresh(c, kind);
        NewNodeOk(id, kind, g, content);
        PushNodePasses(c, NewNode(id, kind, g, content));
      case MoveNode(id, x, y) => PlaceKeeps(c, IndexOf(c.nodes, id), "x", x, "y", y);
      case ResizeNode(id, width, height) => PlaceKeeps(c, IndexOf(c.nodes, id), "width", width, "height", height);
      case Edit(id, kind, content) => EditKeeps(c, IndexOf(c.nodes, id), kind, content);
      case EditFile(id, file, subpath) => EditFileKeeps(c, IndexOf(c.nodes, id), file, subpath);
      case EditEdgeLabel(id, caption) => LabelKeeps(c, IndexOf(c.edges, id), caption);
      case AddEdge(edge) => PushEdgePasses(c, edge);
      case Connect(source, target, fromSide, toSide, newId) =>
        var id := if newId.Some? then newId.value else NextIdOf(c, "edge");
        NextIdIsFresh(c, "edge");
        NewEdgeOk(id, source, target, fromSide, toSide);
        ConnectedNames(c, id, source, target, fromSide, toSide);
        PushEdgePasses(c, NewEdge(id, source, target, fromSide, toSide));
      case RemoveNode(id) => RemoveNodePasses(c, id);
      case RemoveEdge(id) => RemoveEdgePasses(c, id);
    }
  }

  lemma ConnectedNames(c: Canvas, id: string, source: string, target: string, fromSide: string, toSide: string)
    requires Passes(c) && PushEdge(c, NewEdge(id, source, target, fromSide, toSide)).Some?
    ensures source != "" && target != ""
  {
    hide KindOk, GeometryOk, OptionalString, EdgeOk;
    assert forall node :: node in c.nodes ==> NodeOk(node);
  }

  lemma PlaceKeeps(c: Canvas, i: nat, a: string, x: real, b: string, y: real)
    requires Passes(c) && i < |c.nodes| && IsSafeInteger(x) && IsSafeInteger(y)
    requires (a == "x" && b == "y") || (a == "width" && b == "height" && x >= 1.0 && y >= 1.0)
    ensures Passes(WithNode(c, i, c.nodes[i][a := JNumber(x)][b := JNumber(y)]))
  {
    assert c.nodes[i] in c.nodes;
    PlacedOk(c.nodes[i], a, x, b, y);
    WithNodePasses(c, i, c.nodes[i][a := JNumber(x)][b := JNumber(y)]);
    hide NodeOk, EdgeOk, Attached;
  }

  lemma EditKeeps(c: Canvas, i: nat, kind: string, content: string)
    requires Passes(c) && i < |c.nodes| && IsType(c.nodes[i], kind) && IsKind(kind)
    ensures Passes(WithNode(c, i, c.nodes[i][ContentKey(kind) := JString(content)]))
  {
    assert c.nodes[i] in c.nodes;
    EditedOk(c.nodes[i], kind, content);
    WithNodePasses(c, i, c.nodes[i][ContentKey(kind) := JString(content)]);
    hide NodeOk, EdgeOk, Attached;
  }

  lemma EditFileKeeps(c: Canvas, i: nat, file: string, subpath: Option<string>)
    requires Passes(c) && i < |c.nodes| && IsType(c.nodes[i], "file")
    ensures Passes(WithNode(c, i, EditedFile(c.nodes[i], file, subpath))) <==> (subpath.Some? ==> JsText.StartsWith(subpath.value, "#"))
  {
    assert c.nodes[i] in c.nodes;
    EditedFileOk(c.nodes[i], file, subpath);
    hide NodeOk, EdgeOk, Attached, EditedFile;
    WithNodePasses(c, i, EditedFile(c.nodes[i], file, subpath));
  }

  lemma LabelKeeps(c: Canvas, i: nat, caption: string)
    requires Passes(c) && i < |c.edges|
    ensures Passes(c.(edges := c.edges[i := Labelled(c.edges[i], caption)]))
  {
    assert c.edges[i] in c.edges;
    LabelledOk(c.edges[i], c.nodes, caption);
    hide NodeOk, EdgeOk, Attached, Labelled;
    WithEdgePasses(c, i, Labelled(c.edges[i], caption));
  }

  /** A refused operation leaves the document as it was. */
  function Run(c: Canvas, ops: seq<Op>): Canvas
    decreases |ops|
  {
    if ops == [] then c
    else
      var next := Apply(c, ops[0]);
      Run(if next.Some? then next.value else c, ops[1..])
  }

  /** Every run of well-formed operations on a sound document leaves a sound one. */
  lemma {:induction false} RunKeeps(c: Canvas, ops: seq<Op>)
    requires Passes(c) && forall op :: op in ops ==> KindNamed(op) && OpOk(op)
    ensures Passes(Run(c, ops))
    decreases |ops|
  {
    hide Passes, Apply, OpOk, KindNamed;
    if ops != [] {
      assert ops[0] in ops;
      var next := Apply(c, ops[0]);
      if next.Some? {
        ApplyKeeps(c, ops[0]);
        RunKeeps(next.value, ops[1..]);
      } else {
        RunKeeps(c, ops[1..]);
      }
    }
  }

  predicate IsContent(key: string) {
    key == "x" || key == "y" || key == "width" || key == "height" || key == "text" || key == "file" || key == "subpath"
    || key == "url" || key == "label"
  }

  /** No operation but a removal loses an entry, and none touches a key it does not know. */
  lemma {:induction false} UnknownKeysStay(c: Canvas, op: Op)
    requires Apply(c, op).Some? && KindNamed(op)
    ensures var after := Apply(c, op).value;
            && after.other == c.other
            && (!op.RemoveNode? ==> |c.nodes| <= |after.nodes| && forall i, key ::
                 0 <= i < |c.nodes| && !IsContent(key) ==> Get(after.nodes[i], key) == Get(c.nodes[i], key))
            && (!op.RemoveNode? && !op.RemoveEdge? ==> |c.edges| <= |after.edges| && forall i, key ::
                 0 <= i < |c.edges| && key != "label" ==> Get(after.edges[i], key) == Get(c.edges[i], key))
  {
    hide IsSafeInteger, Taken, NewNode, NewEdge, NextIdOf, JsText.StartsWith;
  }

  // ---------- what each operation does ----------

  /** Just these fields have changed, each to the given value or, with None, to nothing. */
  ghost predicate Rewritten(before: Object, after: Object, changes: map<string, Option<Json>>) {
    forall key :: Get(after, key) == if key in changes then changes[key] else Get(before, key)
  }

  /** Just these fields of the first entry of this id have changed, and no other entry. */
  ghost predicate OneRewritten(before: seq<Object>, after: seq<Object>, id: string, changes: map<string, Option<Json>>) {
    |after| == |before| && exists i :: 0 <= i < |before| && RewrittenAt(before, after, i, id, changes)
  }

  ghost predicate RewrittenAt(before: seq<Object>, after: seq<Object>, i: nat, id: string, changes: map<string, Option<Json>>)
    requires i < |before| == |after|
  {
    && IdOf(before[i]) == Some(id) && Rewritten(before[i], after[i], changes)
    && (forall j :: 0 <= j < i ==> IdOf(before[j]) != Some(id))
    && forall j :: 0 <= j < |before| && j != i ==> after[j] == before[j]
  }

  /** The rest of the document is as it was. */
  predicate SameBut(c: Canvas, after: Canvas, nodes: seq<Object>, edges: seq<Object>) {
    after == Canvas(c.other, nodes, edges)
  }

  lemma IndexFinds(entries: seq<Object>, id: string)
    ensures IndexOf(entries, id) < |entries| <==> HasId(entries, Some(id))
  {
    var i := IndexOf(entries, id);
    if i < |entries| {
      assert entries[i] in entries;
    } else {
      forall e | e in entries ensures IdOf(e) != Some(id) {
        var j :| 0 <= j < |entries| && entries[j] == e;
      }
    }
  }

  lemma {:induction false} EntryRewritten(entries: seq<Object>, i: nat, entry: Object, id: string, changes: map<string, Option<Json>>)
    requires i < |entries| && i == IndexOf(entries, id) && Rewritten(entries[i], entry, changes)
    ensures OneRewritten(entries, entries[i := entry], id, changes)
  {
    assert RewrittenAt(entries, entries[i := entry], i, id, changes);
  }

  /** Moving and resizing write the two numbers they are given where they belong, and nothing else. */
  lemma {:induction false} PlacesNode(c: Canvas, id: string, a: real, b: real)
    ensures var moved := Apply(c, MoveNode(id, a, b));
            && (moved.Some? <==> HasId(c.nodes, Some(id)) && IsSafeInteger(a) && IsSafeInteger(b))
            && (moved.Some? ==> SameBut(c, moved.value, moved.value.nodes, c.edges))
            && (moved.Some? ==> OneRewritten(c.nodes, moved.value.nodes, id, map["x" := Some(JNumber(a)), "y" := Some(JNumber(b))]))
    ensures var resized := Apply(c, ResizeNode(id, a, b));
            && (resized.Some? <==> HasId(c.nodes, Some(id)) && IsSafeInteger(a) && IsSafeInteger(b) && a >= 1.0 && b >= 1.0)
            && (resized.Some? ==> SameBut(c, resized.value, resized.value.nodes, c.edges))
            && (resized.Some? ==> OneRewritten(c.nodes, resized.value.nodes, id, map["width" := Some(JNumber(a)), "height" := Some(JNumber(b))]))
  {
    IndexFinds(c.nodes, id);
    hide IsSafeInteger, HasId, OneRewritten;
    var i := IndexOf(c.nodes, id);
    if i < |c.nodes| {
      EntryRewritten(c.nodes, i, c.nodes[i]["x" := JNumber(a)]["y" := JNumber(b)], id, map["x" := Some(JNumber(a)), "y" := Some(JNumber(b))]);
      EntryRewritten(c.nodes, i, c.nodes[i]["width" := JNumber(a)]["height" := JNumber(b)], id,
                     map["width" := Some(JNumber(a)), "height" := Some(JNumber(b))]);
    }
  }

  /** Some entry of this id has this type. */
  ghost predicate HasType(entries: seq<Object>, id: string, kind: string) {
    exists e :: e in entries && IdOf(e) == Some(id) && Get(e, "type") == Some(JString(kind))
  }

  lemma {:induction false} FirstHasType(entries: seq<Object>, id: string, kind: string)
    requires UniqueIds(entries)
    ensures HasType(entries, id, kind) <==> IndexOf(entries, id) < |entries| && IsType(entries[IndexOf(entries, id)], kind)
  {
    var i := IndexOf(entries, id);
    if i < |entries| { assert entries[i] in entries; }
    if HasType(entries, id, kind) {
      var e :| e in entries && IdOf(e) == Some(id) && Get(e, "type") == Some(JString(kind));
      var j :| 0 <= j < |entries| && entries[j] == e;
      assert i == j;
    }
  }

  /** Editing writes the content of a node of the right type into the field of that type, and nothing else. */
  lemma {:induction false} EditsContent(c: Canvas, id: string, content: string)
    requires UniqueIds(c.nodes)
    ensures EditsField(c, Apply(c, Edit(id, "text", content)), id, "text", map["text" := Some(JString(content))])
    ensures EditsField(c, Apply(c, Edit(id, "link", content)), id, "link", map["url" := Some(JString(content))])
    ensures EditsField(c, Apply(c, Edit(id, "group", content)), id, "group", map["label" := Some(JString(content))])
    ensures EditsField(c, Apply(c, EditFile(id, content, None)), id, "file", map["file" := Some(JString(content)), "subpath" := None])
    ensures forall subpath :: EditsField(c, Apply(c, EditFile(id, content, Some(subpath))), id, "file",
                                         map["file" := Some(JString(content)), "subpath" := Some(JString(subpath))])
  {
    EditsKind(c, id, "text", "text", content);
    EditsKind(c, id, "link", "url", content);
    EditsKind(c, id, "group", "label", content);
    EditsFile(c, id, content, None);
    forall subpath ensures EditsField(c, Apply(c, EditFile(id, content, Some(subpath))), id, "file",
                                      map["file" := Some(JString(content)), "subpath" := Some(JString(subpath))]) {
      EditsFile(c, id, content, Some(subpath));
    }
    hide EditsField, Apply;
  }

  ghost predicate EditsField(c: Canvas, after: Option<Canvas>, id: string, kind: string, changes: map<string, Option<Json>>) {
    && (after.Some? <==> HasType(c.nodes, id, kind))
    && (after.Some? ==> SameBut(c, after.value, after.value.nodes, c.edges) && OneRewritten(c.nodes, after.value.nodes, id, changes))
  }

  lemma {:induction false} EditsKind(c: Canvas, id: string, kind: string, key: string, content: string)
    requires UniqueIds(c.nodes) && key == ContentKey(kind)
    ensures EditsField(c, Apply(c, Edit(id, kind, content)), id, kind, map[key := Some(JString(content))])
  {
    FirstHasType(c.nodes, id, kind);
    hide HasType, OneRewritten, UniqueIds;
    var i := IndexOf(c.nodes, id);
    if i < |c.nodes| {
      EntryRewritten(c.nodes, i, c.nodes[i][key := JString(content)], id, map[key := Some(JString(content))]);
    }
  }

  lemma {:induction false} EditsFile(c: Canvas, id: string, file: string, subpath: Option<string>)
    requires UniqueIds(c.nodes)
    ensures EditsField(c, Apply(c, EditFile(id, file, subpath)), id, "file",
                       map["file" := Some(JString(file)), "subpath" := if subpath.Some? then Some(JString(subpath.value)) else None])
  {
    FirstHasType(c.nodes, id, "file");
    hide HasType, OneRewritten, UniqueIds;
    var i := IndexOf(c.nodes, id);
    if i < |c.nodes| {
      EntryRewritten(c.nodes, i, EditedFile(c.nodes[i], file, subpath), id,
                     map["file" := Some(JString(file)), "subpath" := if subpath.Some? then Some(JString(subpath.value)) else None]);
    }
  }

  /** A caption is written into the label of the edge; an empty one takes the label away. */
  lemma {:induction false} EditsLabel(c: Canvas, id: string, caption: string)
    ensures var after := Apply(c, EditEdgeLabel(id, caption));
            && (after.Some? <==> HasId(c.edges, Some(id)))
            && (after.Some? ==> SameBut(c, after.value, c.nodes, after.value.edges))
            && (after.Some? ==> OneRewritten(c.edges, after.value.edges, id, map["label" := if caption == "" then None else Some(JString(caption))]))
  {
    IndexFinds(c.edges, id);
    hide HasId, OneRewritten;
    var i := IndexOf(c.edges, id);
    if i < |c.edges| {
      EntryRewritten(c.edges, i, Labelled(c.edges[i], caption), id, map["label" := if caption == "" then None else Some(JString(caption))]);
    }
  }

  /** Adding puts a node behind the others, unless there are too many or its id is there already. */
  lemma {:induction false} AddsNode(c: Canvas, node: Object)
    ensures var after := Apply(c, AddNode(node));
            && (after.Some? <==> |c.nodes| < MAX_CANVAS_NODES && forall e :: e in c.nodes ==> Get(e, "id") != Get(node, "id"))
            && (after.Some? ==> after.value == Canvas(c.other, c.nodes + [node], c.edges))
  {
  }

  /** A new node has its geometry, its content in the field of its kind, and an id that was given or is not used. */
  lemma {:induction false} AddsNewNode(c: Canvas, kind: string, content: string, g: Geometry, newId: Option<string>)
    requires IsKind(kind)
    ensures var after := Apply(c, AddNew(kind, content, g, newId));
            after.Some? ==>
              && SameBut(c, after.value, after.value.nodes, c.edges) && after.value.nodes != []
              && var node := after.value.nodes[|after.value.nodes| - 1];
                 && after.value.nodes == c.nodes + [node] && IdOf(node).Some?
                 && (if newId.Some? then IdOf(node) == newId else IdOf(node).value !in UsedIds(c))
                 && Rewritten(map[], node, NewFields(IdOf(node).value, kind, g,
                      if kind == "text" then "text" else if kind == "file" then "file" else if kind == "link" then "url" else "label", content))
  {
    NextIdIsFresh(c, kind);
    hide NextIdOf, Taken, UsedIds;
  }

  function NewFields(id: string, kind: string, g: Geometry, key: string, content: string): map<string, Option<Json>> {
    map["id" := Some(JString(id)), "type" := Some(JString(kind)), "x" := Some(JNumber(g.x)), "y" := Some(JNumber(g.y)),
        "width" := Some(JNumber(g.width)), "height" := Some(JNumber(g.height)), key := Some(JString(content))]
  }

  /** An edge is added behind the others when both its ends are there and its id is not. */
  lemma {:induction false} AddsEdge(c: Canvas, edge: Object)
    ensures var after := Apply(c, AddEdge(edge));
            && (after.Some? <==>
                  && |c.edges| < MAX_CANVAS_EDGES && (forall e :: e in c.edges ==> Get(e, "id") != Get(edge, "id"))
                  && (exists n :: n in c.nodes && Get(n, "id") == Get(edge, "fromNode"))
                  && (exists n :: n in c.nodes && Get(n, "id") == Get(edge, "toNode")))
            && (after.Some? ==> after.value == Canvas(c.other, c.nodes, c.edges + [edge]))
  {
  }

  /** Connecting leads from the source to the target, at the sides given. */
  lemma {:induction false} ConnectsNodes(c: Canvas, source: string, target: string, fromSide: string, toSide: string, newId: Option<string>)
    ensures var after := Apply(c, Connect(source, target, fromSide, toSide, newId));
            after.Some? ==>
              && SameBut(c, after.value, c.nodes, after.value.edges) && after.value.edges != []
              && var edge := after.value.edges[|after.value.edges| - 1];
                 && after.value.edges == c.edges + [edge] && IdOf(edge).Some?
                 && (if newId.Some? then IdOf(edge) == newId else IdOf(edge).value !in UsedIds(c))
                 && Rewritten(map[], edge, map["id" := Some(JString(IdOf(edge).value)), "fromNode" := Some(JString(source)),
                      "toNode" := Some(JString(target)), "fromSide" := Some(JString(fromSide)), "toSide" := Some(JString(toSide))])
  {
    NextIdIsFresh(c, "edge");
    hide NextIdOf, Taken, UsedIds;
  }

  /** The entries of `part`, in the order they have in `whole`. */
  ghost predicate InOrder(part: seq<Object>, whole: seq<Object>) {
    part == [] || (whole != [] && ((part[0] == whole[0] && InOrder(part[1..], whole[1..])) || InOrder(part, whole[1..])))
  }

  lemma {:induction false} DetachedInOrder(edges: seq<Object>, id: string)
    ensures InOrder(Detached(edges, id), edges)
    decreases |edges|
  {
    if edges != [] {
      DetachedInOrder(edges[1..], id);
      var rest := Detached(edges[1..], id);
      assert ([edges[0]] + rest)[1..] == rest && [] + rest == rest;
    }
  }

  lemma {:induction false} WithoutInOrder(entries: seq<Object>, id: string)
    ensures InOrder(WithoutId(entries, id), entries)
    decreases |entries|
  {
    if entries != [] {
      WithoutInOrder(entries[1..], id);
      var rest := WithoutId(entries[1..], id);
      assert ([entries[0]] + rest)[1..] == rest && [] + rest == rest;
    }
  }

  /** Every entry but those of this id is left, in its order. */
  ghost predicate LeftWithout(part: seq<Object>, whole: seq<Object>, id: string) {
    InOrder(part, whole) && UniqueIds(part) && forall e :: e in part <==> e in whole && IdOf(e) != Some(id)
  }

  /** Every edge that has no end at this node is left, in its order. */
  ghost predicate LeftDetached(part: seq<Object>, whole: seq<Object>, id: string) {
    && InOrder(part, whole) && UniqueIds(part)
    && forall e :: e in part <==> e in whole && Get(e, "fromNode") != Some(JString(id)) && Get(e, "toNode") != Some(JString(id))
  }

  /** Removing a node takes out its entry and every edge with an end at it. */
  lemma {:induction false} RemovesNode(c: Canvas, id: string)
    requires UniqueIds(c.nodes) && UniqueIds(c.edges)
    ensures var after := Apply(c, RemoveNode(id));
            && after.Some? && after.value.other == c.other && LeftWithout(after.value.nodes, c.nodes, id)
            && if HasId(c.nodes, Some(id)) then LeftDetached(after.value.edges, c.edges, id) else after.value == c
  {
    IndexFinds(c.nodes, id);
    hide HasId, LeftWithout, LeftDetached, UniqueIds, Detached;
    var i := IndexOf(c.nodes, id);
    if i < |c.nodes| {
      OneOutLeft(c.nodes, i, id);
      DetachedLeft(c.edges, id);
    } else {
      NoneOutLeft(c.nodes, id);
    }
  }

  lemma {:induction false} OneOutLeft(entries: seq<Object>, i: nat, id: string)
    requires UniqueIds(entries) && i < |entries| && IdOf(entries[i]) == Some(id)
    ensures LeftWithout(entries[..i] + entries[i + 1..], entries, id)
  {
    NodesWithoutOne(entries, i);
    OneOutInOrder(entries, i);
    OneOutMembers(entries, i);
    hide InOrder, UniqueIds, HasId;
  }

  lemma {:induction false} NoneOutLeft(entries: seq<Object>, id: string)
    requires UniqueIds(entries) && !HasId(entries, Some(id))
    ensures LeftWithout(entries, entries, id)
  {
    AllInOrder(entries);
    NoneHasId(entries, id);
    hide InOrder, UniqueIds, HasId;
  }

  lemma {:induction false} DetachedLeft(edges: seq<Object>, id: string)
    requires UniqueIds(edges)
    ensures LeftDetached(Detached(edges, id), edges, id)
  {
    DetachedMembers(edges, id);
    DetachedInOrder(edges, id);
    forall e ensures (StringOf(e, "fromNode") == Some(id) <==> Get(e, "fromNode") == Some(JString(id)))
                     && (StringOf(e, "toNode") == Some(id) <==> Get(e, "toNode") == Some(JString(id))) {
    }
    hide InOrder, UniqueIds, Detached, StringOf, Get;
  }

  /** Removing an edge takes out its entry. */
  lemma {:induction false} RemovesEdge(c: Canvas, id: string)
    requires UniqueIds(c.edges)
    ensures var after := Apply(c, RemoveEdge(id));
            after.Some? && SameBut(c, after.value, c.nodes, after.value.edges) && LeftWithout(after.value.edges, c.edges, id)
  {
    WithoutMembers(c.edges, id);
    WithoutInOrder(c.edges, id);
    hide InOrder, UniqueIds, WithoutId;
  }

  lemma NoneHasId(entries: seq<Object>, id: string)
    requires !HasId(entries, Some(id))
    ensures forall e :: e in entries ==> IdOf(e) != Some(id)
  {
  }

  lemma {:induction false} AllInOrder(entries: seq<Object>)
    ensures InOrder(entries, entries)
    decreases |entries|
  {
    if entries != [] { AllInOrder(entries[1..]); }
  }

  lemma {:induction false} OneOutInOrder(entries: seq<Object>, i: nat)
    requires i < |entries|
    ensures InOrder(entries[..i] + entries[i + 1..], entries)
    decreases i
  {
    var rest := entries[..i] + entries[i + 1..];
    if i == 0 {
      assert rest == entries[1..];
      AllInOrder(entries[1..]);
      if rest != [] { SkipFirst(rest, entries); }
    } else {
      OneOutInOrder(entries[1..], i - 1);
      assert rest[0] == entries[0] && rest[1..] == entries[1..][..i - 1] + entries[1..][i..];
    }
  }

  lemma SkipFirst(part: seq<Object>, whole: seq<Object>)
    requires whole != [] && InOrder(part, whole[1..])
    ensures InOrder(part, whole)
  {
  }

  lemma {:induction false} OneOutMembers(entries: seq<Object>, i: nat)
    requires UniqueIds(entries) && i < |entries|
    ensures forall e :: e in entries[..i] + entries[i + 1..] <==> e in entries && IdOf(e) != IdOf(entries[i])
  {
    var rest := entries[..i] + entries[i + 1..];
    assert forall j :: 0 <= j < |rest| ==> rest[j] == entries[if j < i then j else j + 1];
    forall e | e in entries && IdOf(e) != IdOf(entries[i]) ensures e in rest {
      var j :| 0 <= j < |entries| && entries[j] == e;
      assert rest[if j < i then j else j - 1] == e;
    }
  }

  // ---------- the mutable document ----------

  /** Every method answers whether the original returns normally; a refusal changes nothing. */
  class MutableJsonCanvas {
    var other: Object
    var nodes: seq<Object>
    var edges: seq<Object>

    ghost function Document(): Canvas reads this {
      Canvas(other, nodes, edges)
    }

    /** The new state is the specified one, and a refused operation leaves the old one. */
    twostate predicate Became(result: Option<Canvas>, ok: bool) reads this {
      ok == result.Some? && Document() == if ok then result.value else old(Document())
    }

    constructor (document: Canvas)
      ensures Document() == document
    {
      other, nodes, edges := document.other, document.nodes, document.edges;
    }

    method NextId(prefix: string) returns (id: string)
      ensures id == NextIdOf(Document(), prefix)
    {
      var used := Ids(nodes) + Ids(edges);
      var index := 1;
      ghost var rest := used;
      while Numbered(prefix, index) in used
        invariant FreeIndex(used, prefix, 1) == FreeIndex(rest, prefix, index)
        invariant rest <= used && forall j: nat :: index <= j && Numbered(prefix, j) in used ==> Numbered(prefix, j) in rest
        decreases |rest|
      {
        forall j: nat | index < j ensures Numbered(prefix, j) != Numbered(prefix, index) {
          NumberedInjective(prefix, index, j);
        }
        rest := rest - {Numbered(prefix, index)};
        index := index + 1;
      }
      id := Numbered(prefix, index);
    }

    method AddNode(node: Object) returns (ok: bool)
      modifies this
      ensures Became(Apply(old(Document()), Op.AddNode(node)), ok)
    {
      if |nodes| >= MAX_CANVAS_NODES || Taken(nodes, Get(node, "id")) {
        return false;
      }
      nodes := nodes + [node];
      ok := true;
    }

    /** `addText`, `addGroup`, `addFile` and `addLink`, which differ in their kind and content key. */
    method AddNewNode(kind: string, content: string, geometry: Geometry, newId: Option<string>) returns (ok: bool)
      modifies this
      ensures Became(Apply(old(Document()), AddNew(kind, content, geometry, newId)), ok)
    {
      var id;
      if newId.Some? {
        id := newId.value;
      } else {
        id := NextId(kind);
      }
      hide NextIdOf, NewNode;
      ok := AddNode(NewNode(id, kind, geometry, content));
    }

    method Move(id: string, x: real, y: real) returns (ok: bool)
      modifies this
      ensures Became(Apply(old(Document()), MoveNode(id, x, y)), ok)
    {
      var i := IndexOf(nodes, id);
      if i == |nodes| || !IsSafeInteger(x) || !IsSafeInteger(y) {
        return false;
      }
      nodes := nodes[i := nodes[i]["x" := JNumber(x)]["y" := JNumber(y)]];
      ok := true;
    }

    method Resize(id: string, width: real, height: real) returns (ok: bool)
      modifies this
      ensures Became(Apply(old(Document()), ResizeNode(id, width, height)), ok)
    {
      var i := IndexOf(nodes, id);
      if i == |nodes| || !IsSafeInteger(width) || !IsSafeInteger(height) || width < 1.0 || height < 1.0 {
        return false;
      }
      nodes := nodes[i := nodes[i]["width" := JNumber(width)]["height" := JNumber(height)]];
      ok := true;
    }

    /** `editText`, `editLink` and `editGroup`. */
    method EditContent(id: string, kind: string, content: string) returns (ok: bool)
      modifies this
      ensures Became(Apply(old(Document()), Edit(id, kind, content)), ok)
    {
      var i := IndexOf(nodes, id);
      if i == |nodes| || !IsType(nodes[i], kind) {
        return false;
      }
      nodes := nodes[i := nodes[i][ContentKey(kind) := JString(content)]];
      ok := true;
    }

    method EditFileNode(id: string, file: string, subpath: Option<string>) returns (ok: bool)
      modifies this
      ensures Became(Apply(old(Document()), EditFile(id, file, subpath)), ok)
    {
      var i := IndexOf(nodes, id);
      if i == |nodes| || !IsType(nodes[i], "file") {
        return false;
      }
      var node := nodes[i]["file" := JString(file)];
      node := if subpath.None? then node - {"subpath"} else node["subpath" := JString(subpath.value)];
      nodes := nodes[i := node];
      ok := true;
    }

    method EditLabel(id: string, caption: string) returns (ok: bool)
      modifies this
      ensures Became(Apply(old(Document()), EditEdgeLabel(id, caption)), ok)
    {
      var i := IndexOf(edges, id);
      if i == |edges| {
        return false;
      }
      edges := edges[i := if caption != "" then edges[i]["label" := JString(caption)] else edges[i] - {"label"}];
      ok := true;
    }

    method AddNewEdge(edge: Object) returns (ok: bool)
      modifies this
      ensures Became(Apply(old(Document()), AddEdge(edge)), ok)
    {
      if |edges| >= MAX_CANVAS_EDGES || Taken(edges, Get(edge, "id"))
         || !Taken(nodes, Get(edge, "fromNode")) || !Taken(nodes, Get(edge, "toNode")) {
        return false;
      }
      edges := edges + [edge];
      ok := true;
    }

    method ConnectNodes(source: string, target: string, fromSide: string, toSide: string, newId: Option<string>) returns (ok: bool)
      modifies this
      ensures Became(Apply(old(Document()), Connect(source, target, fromSide, toSide, newId)), ok)
    {
      var id;
      if newId.Some? {
        id := newId.value;
      } else {
        id := NextId("edge");
      }
      hide NextIdOf, NewEdge;
      ok := AddNewEdge(NewEdge(id, source, target, fromSide, toSide));
    }

    method Remove(id: string)
      modifies this
      ensures Became(Apply(old(Document()), RemoveNode(id)), true)
    {
      var i := IndexOf(nodes, id);
      if i < |nodes| {
        nodes := nodes[..i] + nodes[i + 1..];
        edges := Detached(edges, id);
      }
    }

    method Disconnect(id: string)
      modifies this
      ensures Became(Apply(old(Document()), RemoveEdge(id)), true)
    {
      edges := WithoutId(edges, id);
    }
  }
}
