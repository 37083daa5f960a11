/** The persisted layout of a workspace and its version 1 projection (src/application/workspace-state.ts). */
module WorkspaceState {
  import opened Options
  import opened Sequences
  import opened Json
  import opened JsText
  import opened VaultPath

  const MAXIMUM_TABS := 1024
  const MAXIMUM_HISTORY := 128

  datatype PaneId = Primary | Secondary

  datatype Direction = Horizontal | Vertical

  datatype History = History(back: seq<string>, forward: seq<string>)

  datatype Pane = Pane(id: PaneId, openPaths: seq<string>, pinnedPaths: seq<string>, activePath: Option<string>, history: Option<History>)

  datatype State = State(vaultId: string, panes: seq<Pane>, activePaneId: PaneId, splitDirection: Option<Direction>)

  // ---------- reading ----------

  function NormalizeWorkspacePath(path: string): Option<string> {
    var normalized := NormalizeVaultPath(path);
    if normalized.None? || StartsWith(Lower(normalized.value), ".obsidian/") then None else normalized
  }

  function NormalizePaths(values: seq<Json>): (r: Option<seq<string>>)
    ensures r.Some? ==> |r.value| == |values|
  {
    if values == [] then Some([])
    else if !values[0].JString? then None
    else
      var first, rest := NormalizeWorkspacePath(values[0].text), NormalizePaths(values[1..]);
      if first.None? || rest.None? then None else Some([first.value] + rest.value)
  }

  predicate NoRepeats(paths: seq<string>) {
    paths == [] || (paths[0] !in paths[1..] && NoRepeats(paths[1..]))
  }

  /** The paths that are not among `others`, in their order. */
  function Outside(paths: seq<string>, others: seq<string>): seq<string> {
    if paths == [] then [] else (if paths[0] in others then [] else [paths[0]]) + Outside(paths[1..], others)
  }

  function ReadPaneId(value: Option<Json>): Option<PaneId> {
    if value == Some(JString("primary")) then Some(Primary)
    else if value == Some(JString("secondary")) then Some(Secondary)
    else None
  }

  /** None stands for a value that is refused, Some(None) for null. */
  function ReadDirection(value: Option<Json>): Option<Option<Direction>> {
    if value == Some(JNull) then Some(None)
    else if value == Some(JString("horizontal")) then Some(Some(Horizontal))
    else if value == Some(JString("vertical")) then Some(Some(Vertical))
    else None
  }

  function ReadHistory(value: Option<Json>): Option<Option<History>> {
    if value.None? then Some(None)
    else if !value.value.JObject? then None
    else
      var back, forward := Get(value.value.fields, "back"), Get(value.value.fields, "forward");
      if !(back.Some? && back.value.JArray? && forward.Some? && forward.value.JArray?) then None
      else if |back.value.items| + |forward.value.items| > MAXIMUM_HISTORY then None
      else
        var b, f := NormalizePaths(back.value.items), NormalizePaths(forward.value.items);
        if b.None? || f.None? || !NoRepeats(b.value + f.value) then None else Some(Some(History(b.value, f.value)))
  }

  function ReadActive(value: Option<Json>): Option<Option<string>> {
    if value == Some(JNull) then Some(None)
    else if value.Some? && value.value.JString? then
      var path := NormalizeWorkspacePath(value.value.text);
      if path.None? then None else Some(path)
    else None
  }

  /** The tabs of a pane, the pinned ones first. */
  function ArrangeTabs(raw: seq<string>, pinned: seq<string>): Option<seq<string>> {
    if !NoRepeats(raw) || !NoRepeats(pinned) || |pinned| > |raw| || exists path :: path in pinned && path !in raw then None
    else Some(pinned + Outside(raw, pinned))
  }

  function NormalizePane(value: Json): Option<Pane> {
    if !value.JObject? then None
    else
      var o := value.fields;
      var id, open, pinned := ReadPaneId(Get(o, "id")), Get(o, "openPaths"), Get(o, "pinnedPaths");
      var active, history := ReadActive(Get(o, "activePath")), ReadHistory(Get(o, "navigationHistory"));
      if id.None? || open.None? || !open.value.JArray? || (pinned.Some? && !pinned.value.JArray?) || active.None? || history.None? then None
      else if |open.value.items| > MAXIMUM_TABS then None
      else
        var rawOpen, rawPinned := NormalizePaths(open.value.items), NormalizePaths(if pinned.Some? then pinned.value.items else []);
        if rawOpen.None? || rawPinned.None? then None
        else
          var tabs := ArrangeTabs(rawOpen.value, rawPinned.value);
          if tabs.None? || (active.value.Some? && active.value.value !in tabs.value) || (active.value.None? && tabs.value != []) then None
          else Some(Pane(id.value, tabs.value, rawPinned.value, active.value, history.value))
  }

  function NormalizePanes(values: seq<Json>): (r: Option<seq<Pane>>)
    ensures r.Some? ==> |r.value| == |values|
  {
    if values == [] then Some([])
    else
      var first, rest := NormalizePane(values[0]), NormalizePanes(values[1..]);
      if first.None? || rest.None? then None else Some([first.value] + rest.value)
  }

  predicate PaneIdsOk(panes: seq<Pane>, active: PaneId, direction: Option<Direction>) {
    && 1 <= |panes| <= 2 && panes[0].id == Primary && (|panes| == 2 ==> panes[1].id == Secondary)
    && (active == Secondary ==> |panes| == 2)
    && (|panes| == 1 <==> direction.None?)
  }

  function NormalizeVersionTwo(o: Object, vaultId: string): Option<State> {
    var panes, active, direction := Get(o, "panes"), ReadPaneId(Get(o, "activePaneId")), ReadDirection(Get(o, "splitDirection"));
    if Get(o, "vaultId") != Some(JString(vaultId)) || panes.None? || !panes.value.JArray? || active.None? || direction.None? then None
    else if |panes.value.items| < 1 || |panes.value.items| > 2 then None
    else
      var read := NormalizePanes(panes.value.items);
      if read.None? || !PaneIdsOk(read.value, active.value, direction.value) then None
      else Some(State(vaultId, read.value, active.value, direction.value))
  }

  function MigrateVersionOne(o: Object, vaultId: string): Option<State> {
    var open, active := Get(o, "openPaths"), Get(o, "activePath");
    if Get(o, "vaultId") != Some(JString(vaultId)) || open.None? || !open.value.JArray?
       || !(active == Some(JNull) || IsString(active)) then None
    else
      var pane := JObject(map["id" := JString("primary"), "openPaths" := open.value, "activePath" := active.value]);
      NormalizeVersionTwo(map["vaultId" := JString(vaultId), "panes" := JArray([pane]),
                              "activePaneId" := JString("primary"), "splitDirection" := JNull], vaultId)
  }

  function ActivePane(state: State): Pane
    requires PaneIdsOk(state.panes, state.activePaneId, state.splitDirection)
  {
    if state.activePaneId == Primary then state.panes[0] else state.panes[1]
  }

  function NormalizeCompatible(o: Object, vaultId: string): Option<State> {
    var legacy, layout := MigrateVersionOne(o, vaultId), NormalizeVersionTwo(o, vaultId);
    if legacy.None? || layout.None? then None
    else
      var projected, old_ := ActivePane(layout.value), ActivePane(legacy.value);
      if old_.activePath != projected.activePath || old_.openPaths != projected.openPaths then None else layout
  }

  predicate VaultIdOk(vaultId: string) {
    vaultId != "" && |vaultId| <= 256
  }

  /** None where the original throws. */
  function ParseWorkspaceState(value: Json, vaultId: string): Option<State> {
    if !VaultIdOk(vaultId) || !value.JObject? then None
    else
      var o := value.fields;
      var layoutVersion := Get(o, "layoutVersion");
      if Get(o, "version") == Some(JNumber(1.0)) then
        if layoutVersion == Some(JNumber(2.0)) then NormalizeCompatible(o, vaultId)
        else if layoutVersion.Some? then None
        else MigrateVersionOne(o, vaultId)
      else if Get(o, "version") != Some(JNumber(2.0)) then None
      else NormalizeVersionTwo(o, vaultId)
  }

  /** Whether the active pane of a layout has these tabs and this active path. */
  predicate ActiveShows(state: State, tabs: seq<string>, activePath: Option<string>) {
    exists pane :: pane in state.panes && pane.id == state.activePaneId && pane.openPaths == tabs && pane.activePath == activePath
  }

  /**
   * A document of version 1 that holds a layout of version 2 as well is read as that layout, and
   * only when its version 1 part reads as one pane that shows what the active pane shows.
   */
  lemma {:induction false} VersionsAgree(o: Object, vaultId: string)
    requires Get(o, "version") == Some(JNumber(1.0)) && Get(o, "layoutVersion") == Some(JNumber(2.0)) && VaultIdOk(vaultId)
    ensures var legacy, layout := MigrateVersionOne(o, vaultId), NormalizeVersionTwo(o, vaultId);
            ParseWorkspaceState(JObject(o), vaultId) == if layout.Some? && legacy.Some? && Agrees(legacy.value, layout.value) then layout else None
  {
    LegacyHasOnePane(o, vaultId);
    LayoutIdsOk(o, vaultId);
    if NormalizeVersionTwo(o, vaultId).Some? && MigrateVersionOne(o, vaultId).Some? {
      var legacy := MigrateVersionOne(o, vaultId).value;
      ActiveIsTheOne(NormalizeVersionTwo(o, vaultId).value, legacy.panes[0].openPaths, legacy.panes[0].activePath);
    }
    hide NormalizeVersionTwo, MigrateVersionOne, ActiveShows, PaneIdsOk;
  }

  /** The version 1 part reads as one pane that shows what the active pane of the layout shows. */
  predicate Agrees(legacy: State, layout: State) {
    |legacy.panes| == 1 && ActiveShows(layout, legacy.panes[0].openPaths, legacy.panes[0].activePath)
  }

  lemma LayoutIdsOk(o: Object, vaultId: string)
    ensures var layout := NormalizeVersionTwo(o, vaultId);
            layout.Some? ==> PaneIdsOk(layout.value.panes, layout.value.activePaneId, layout.value.splitDirection)
  {
    hide NormalizePanes;
  }

  lemma ActiveIsTheOne(state: State, tabs: seq<string>, activePath: Option<string>)
    requires PaneIdsOk(state.panes, state.activePaneId, state.splitDirection)
    ensures ActiveShows(state, tabs, activePath) <==> ActivePane(state).openPaths == tabs && ActivePane(state).activePath == activePath
  {
    assert ActivePane(state) in state.panes && ActivePane(state).id == state.activePaneId;
  }

  lemma LegacyHasOnePane(o: Object, vaultId: string)
    ensures var legacy := MigrateVersionOne(o, vaultId);
            legacy.Some? ==> |legacy.value.panes| == 1 && legacy.value.activePaneId == Primary && ActivePane(legacy.value) == legacy.value.panes[0]
  {
    hide NormalizePane;
  }

  /** Any other version, and a layout version without version 1, is refused. */
  lemma OtherVersionsRefused(o: Object, vaultId: string)
    ensures ParseWorkspaceState(JObject(o), vaultId).Some? ==>
      || Get(o, "version") == Some(JNumber(2.0))
      || (Get(o, "version") == Some(JNumber(1.0)) && (Get(o, "layoutVersion") == None || Get(o, "layoutVersion") == Some(JNumber(2.0))))
  {
    hide NormalizeVersionTwo, MigrateVersionOne, NormalizeCompatible;
  }

  // ---------- the layout invariant ----------

  ghost predicate PathOk(path: string) {
    IsVaultPath(path) && !StartsWith(Lower(path), ".obsidian/")
  }

  ghost predicate AllPathsOk(paths: seq<string>) {
    forall path :: path in paths ==> PathOk(path)
  }

  ghost predicate HistoryOk(history: Option<History>) {
    history.Some? ==>
      |history.value.back| + |history.value.forward| <= MAXIMUM_HISTORY && NoRepeats(history.value.back + history.value.forward)
      && AllPathsOk(history.value.back) && AllPathsOk(history.value.forward)
  }

  /** No tab twice, the pinned tabs first, and the active tab open. */
  ghost predicate PaneOk(pane: Pane) {
    && |pane.openPaths| <= MAXIMUM_TABS && NoRepeats(pane.openPaths) && AllPathsOk(pane.openPaths)
    && pane.pinnedPaths <= pane.openPaths
    && (match pane.activePath case Some(path) => path in pane.openPaths case None => pane.openPaths == [])
    && HistoryOk(pane.history)
  }

  ghost predicate LayoutOk(state: State) {
    && VaultIdOk(state.vaultId) && PaneIdsOk(state.panes, state.activePaneId, state.splitDirection)
    && forall pane :: pane in state.panes ==> PaneOk(pane)
  }

  lemma {:induction false} NormalizedIsOk(path: string)
    ensures NormalizeWorkspacePath(path).Some? ==> PathOk(NormalizeWorkspacePath(path).value)
  {
    hide NormalizeVaultPath, IsVaultPath;
    if NormalizeVaultPath(path).Some? {
      NormalizedIsVaultPath(path);
    }
  }

  lemma {:induction false} NormalizedPathsOk(values: seq<Json>)
    ensures NormalizePaths(values).Some? ==> AllPathsOk(NormalizePaths(values).value)
    decreases |values|
  {
    hide NormalizeWorkspacePath, PathOk;
    if values != [] && values[0].JString? {
      NormalizedIsOk(values[0].text);
      NormalizedPathsOk(values[1..]);
    }
  }

  lemma {:induction false} OutsideMembers(paths: seq<string>, others: seq<string>)
    ensures |Outside(paths, others)| <= |paths|
    ensures forall p :: p in Outside(paths, others) <==> p in paths && p !in others
    ensures NoRepeats(paths) ==> NoRepeats(Outside(paths, others))
    decreases |paths|
  {
    if paths != [] {
      OutsideMembers(paths[1..], others);
      HeadTail(paths);
      var rest := Outside(paths[1..], others);
      assert [] + rest == rest && ([paths[0]] + rest)[1..] == rest;
    }
  }

  lemma {:induction false} JoinDistinct(a: seq<string>, b: seq<string>)
    requires NoRepeats(a) && NoRepeats(b) && forall p :: p in a ==> p !in b
    ensures NoRepeats(a + b)
    decreases |a|
  {
    if a == [] {
      assert a + b == b;
    } else {
      assert (a + b)[1..] == a[1..] + b && a[0] in a;
      JoinDistinct(a[1..], b);
    }
  }

  /** Leaving out paths that are there once each makes the list shorter by their number. */
  lemma {:induction false} OutsideLength(paths: seq<string>, others: seq<string>)
    requires NoRepeats(paths) && NoRepeats(others) && forall p :: p in others ==> p in paths
    ensures |Outside(paths, others)| + |others| == |paths|
  {
    DistinctSize(paths);
    DistinctSize(others);
    OutsideMembers(paths, others);
    DistinctSize(Outside(paths, others));
    var all, left, out := Members(paths), Members(others), Members(Outside(paths, others));
    assert all == left + out && left * out == {};
  }

  ghost function Members(paths: seq<string>): set<string> {
    set p | p in paths
  }

  lemma {:induction false} DistinctSize(paths: seq<string>)
    requires NoRepeats(paths)
    ensures |Members(paths)| == |paths|
    decreases |paths|
  {
    if paths != [] {
      DistinctSize(paths[1..]);
      HeadTail(paths);
      assert Members(paths) == {paths[0]} + Members(paths[1..]);
    }
  }

  /** Arranged tabs have no repetition, start with the pinned ones and are as many as before. */
  lemma {:induction false} ArrangedIsOk(raw: seq<string>, pinned: seq<string>)
    requires ArrangeTabs(raw, pinned).Some?
    ensures var tabs := ArrangeTabs(raw, pinned).value;
            |tabs| == |raw| && NoRepeats(tabs) && pinned <= tabs && forall p :: p in tabs <==> p in raw
  {
    OutsideMembers(raw, pinned);
    OutsideLength(raw, pinned);
    JoinDistinct(pinned, Outside(raw, pinned));
  }

  lemma {:induction false} ReadHistoryOk(value: Option<Json>)
    ensures ReadHistory(value).Some? ==> HistoryOk(ReadHistory(value).value)
  {
    hide NormalizePaths, AllPathsOk;
    if ReadHistory(value).Some? && ReadHistory(value).value.Some? {
      NormalizedPathsOk(value.value.fields["back"].items);
      NormalizedPathsOk(value.value.fields["forward"].items);
    }
  }

  lemma {:induction false} NormalizedPaneOk(value: Json)
    ensures NormalizePane(value).Some? ==> PaneOk(NormalizePane(value).value)
  {
    hide NormalizePaths, ReadHistory, HistoryOk, ArrangeTabs, ReadActive, NoRepeats, PathOk;
    if NormalizePane(value).Some? {
      var o := value.fields;
      var raw := NormalizePaths(o["openPaths"].items).value;
      var pinned := NormalizePane(value).value.pinnedPaths;
      ReadHistoryOk(Get(o, "navigationHistory"));
      NormalizedPathsOk(o["openPaths"].items);
      ArrangedIsOk(raw, pinned);
    }
  }

  lemma {:induction false} NormalizedPanesOk(values: seq<Json>)
    ensures NormalizePanes(values).Some? ==> forall pane :: pane in NormalizePanes(values).value ==> PaneOk(pane)
    decreases |values|
  {
    hide NormalizePane, PaneOk;
    if values != [] {
      NormalizedPaneOk(values[0]);
      NormalizedPanesOk(values[1..]);
    }
  }

  lemma {:induction false} VersionTwoOk(o: Object, vaultId: string)
    requires VaultIdOk(vaultId)
    ensures NormalizeVersionTwo(o, vaultId).Some? ==>
      LayoutOk(NormalizeVersionTwo(o, vaultId).value) && NormalizeVersionTwo(o, vaultId).value.vaultId == vaultId
  {
    hide NormalizePanes, PaneOk, ReadPaneId, ReadDirection, PaneIdsOk;
    if NormalizeVersionTwo(o, vaultId).Some? {
      NormalizedPanesOk(o["panes"].items);
    }
  }

  /** Whatever is read, of any version, keeps the layout invariant. */
  lemma {:induction false} ParsedIsOk(value: Json, vaultId: string)
    requires ParseWorkspaceState(value, vaultId).Some?
    ensures LayoutOk(ParseWorkspaceState(value, vaultId).value) && ParseWorkspaceState(value, vaultId).value.vaultId == vaultId
  {
    var o := value.fields;
    VersionTwoOk(o, vaultId);
    hide LayoutOk, NormalizeVersionTwo, VaultIdOk, ActivePane;
    var open, active := Get(o, "openPaths"), Get(o, "activePath");
    if open.Some? && active.Some? {
      var pane := JObject(map["id" := JString("primary"), "openPaths" := open.value, "activePath" := active.value]);
      VersionTwoOk(map["vaultId" := JString(vaultId), "panes" := JArray([pane]),
                       "activePaneId" := JString("primary"), "splitDirection" := JNull], vaultId);
    }
  }

  // ---------- writing ----------

  function Strings(paths: seq<string>): seq<Json> {
    if paths == [] then [] else [JString(paths[0])] + Strings(paths[1..])
  }

  function WritePaneId(id: PaneId): Json {
    JString(if id == Primary then "primary" else "secondary")
  }

  function WriteDirection(direction: Option<Direction>): Json {
    match direction
    case None => JNull
    case Some(Horizontal) => JString("horizontal")
    case Some(Vertical) => JString("vertical")
  }

  function WriteActive(active: Option<string>): Json {
    if active.None? then JNull else JString(active.value)
  }

  function WriteHistory(history: History): Json {
    JObject(map["back" := JArray(Strings(history.back)), "forward" := JArray(Strings(history.forward))])
  }

  function WritePane(pane: Pane): Json {
    var o := map["id" := WritePaneId(pane.id), "openPaths" := JArray(Strings(pane.openPaths)),
                 "pinnedPaths" := JArray(Strings(pane.pinnedPaths)), "activePath" := WriteActive(pane.activePath)];
    JObject(if pane.history.None? then o else o["navigationHistory" := WriteHistory(pane.history.value)])
  }

  function WritePanes(panes: seq<Pane>): seq<Json> {
    if panes == [] then [] else [WritePane(panes[0])] + WritePanes(panes[1..])
  }

  /** A layout as `createWorkspaceLayout` hands it to the parser, and as a state reads to it. */
  function WriteLayout(state: State): Object {
    map["version" := JNumber(2.0), "vaultId" := JString(state.vaultId), "panes" := JArray(WritePanes(state.panes)),
        "activePaneId" := WritePaneId(state.activePaneId), "splitDirection" := WriteDirection(state.splitDirection)]
  }

  /** The version 1 document that carries the layout along. */
  function WriteDocument(state: State): Object
    requires PaneIdsOk(state.panes, state.activePaneId, state.splitDirection)
  {
    var projected := ActivePane(state);
    map["version" := JNumber(1.0), "layoutVersion" := JNumber(2.0), "vaultId" := JString(state.vaultId),
        "openPaths" := JArray(Strings(projected.openPaths)), "activePath" := WriteActive(projected.activePath),
        "panes" := JArray(WritePanes(state.panes)), "activePaneId" := WritePaneId(state.activePaneId),
        "splitDirection" := WriteDirection(state.splitDirection)]
  }

  function CreateWorkspaceLayout(state: State): Option<State> {
    ParseWorkspaceState(JObject(WriteLayout(state)), state.vaultId)
  }

  function CreateWorkspaceStateDocument(state: State): Option<Object> {
    var normalized := ParseWorkspaceState(JObject(WriteLayout(state)), state.vaultId);
    if normalized.None? then None
    else
      ParsedIsOk(JObject(WriteLayout(state)), state.vaultId);
      Some(WriteDocument(normalized.value))
  }

  // ---------- reading back ----------

  /** The paths that the parser accepts a second time. */
  ghost predicate AllKept(paths: seq<string>) {
    forall path :: path in paths ==> !DriveAbsolute(path)
  }

  ghost predicate HistoryKept(history: Option<History>) {
    history.Some? ==> AllKept(history.value.back) && AllKept(history.value.forward)
  }

  ghost predicate PaneKept(pane: Pane) {
    AllKept(pane.openPaths) && HistoryKept(pane.history)
  }

  ghost predicate StateKept(state: State) {
    forall pane :: pane in state.panes ==> PaneKept(pane)
  }

  lemma {:induction false} NormalizedAgain(path: string)
    requires PathOk(path)
    ensures NormalizeWorkspacePath(path) == if DriveAbsolute(path) then None else Some(path)
  {
    NormalizeAgain(path);
    hide NormalizeVaultPath, IsVaultPath, DriveAbsolute, Lower;
  }

  lemma {:induction false} StringsReadBack(paths: seq<string>)
    requires AllPathsOk(paths)
    ensures |Strings(paths)| == |paths|
    ensures NormalizePaths(Strings(paths)).Some? <==> AllKept(paths)
    ensures AllKept(paths) ==> NormalizePaths(Strings(paths)) == Some(paths)
    decreases |paths|
  {
    hide NormalizeWorkspacePath, PathOk, DriveAbsolute;
    if paths != [] {
      assert paths[0] in paths;
      NormalizedAgain(paths[0]);
      StringsReadBack(paths[1..]);
      HeadTail(paths);
      assert ([JString(paths[0])] + Strings(paths[1..]))[1..] == Strings(paths[1..]);
      assert AllKept(paths) <==> !DriveAbsolute(paths[0]) && AllKept(paths[1..]);
    }
  }

  lemma {:induction false} HistoryReadsBack(history: Option<History>)
    requires HistoryOk(history)
    ensures ReadHistory(if history.None? then None else Some(WriteHistory(history.value)))
         == if HistoryKept(history) then Some(history) else None
  {
    if history.Some? {
      StringsReadBack(history.value.back);
      StringsReadBack(history.value.forward);
      hide NormalizePaths, Strings, NoRepeats, AllKept, AllPathsOk;
    }
  }

  lemma {:induction false} ActiveReadsBack(pane: Pane)
    requires PaneOk(pane)
    ensures ReadActive(Some(WriteActive(pane.activePath))).Some? ==> ReadActive(Some(WriteActive(pane.activePath))) == Some(pane.activePath)
    ensures AllKept(pane.openPaths) ==> ReadActive(Some(WriteActive(pane.activePath))) == Some(pane.activePath)
  {
    hide NormalizeWorkspacePath, PathOk, DriveAbsolute, HistoryOk, NoRepeats;
    if pane.activePath.Some? {
      NormalizedAgain(pane.activePath.value);
    }
  }

  lemma {:induction false} OutsidePrefix(prefix: seq<string>, rest: seq<string>)
    requires NoRepeats(prefix + rest)
    ensures Outside(prefix + rest, prefix) == rest && NoRepeats(prefix)
    decreases |prefix|
  {
    OutsideOfOthers(prefix, rest, prefix);
    DistinctParts(prefix, rest);
    NothingOutside(prefix, prefix);
    EverythingOutside(rest, prefix);
  }

  lemma {:induction false} OutsideOfOthers(a: seq<string>, b: seq<string>, others: seq<string>)
    ensures Outside(a + b, others) == Outside(a, others) + Outside(b, others)
    decreases |a|
  {
    if a == [] {
      assert a + b == b;
    } else {
      assert (a + b)[1..] == a[1..] + b;
      OutsideOfOthers(a[1..], b, others);
      Associative(if a[0] in others then [] else [a[0]], Outside(a[1..], others), Outside(b, others));
    }
  }

  lemma {:induction false} NothingOutside(a: seq<string>, others: seq<string>)
    requires forall p :: p in a ==> p in others
    ensures Outside(a, others) == []
    decreases |a|
  {
    if a != [] {
      assert a[0] in a;
      NothingOutside(a[1..], others);
    }
  }

  lemma {:induction false} EverythingOutside(a: seq<string>, others: seq<string>)
    requires forall p :: p in a ==> p !in others
    ensures Outside(a, others) == a
    decreases |a|
  {
    if a != [] {
      assert a[0] in a;
      EverythingOutside(a[1..], others);
      HeadTail(a);
    }
  }

  lemma {:induction false} DistinctParts(a: seq<string>, b: seq<string>)
    requires NoRepeats(a + b)
    ensures NoRepeats(a) && NoRepeats(b) && forall p :: p in b ==> p !in a
    decreases |a|
  {
    if a == [] {
      assert a + b == b;
    } else {
      assert (a + b)[0] == a[0] && (a + b)[1..] == a[1..] + b;
      DistinctParts(a[1..], b);
      forall p | p in b ensures p !in a {
        assert p in a[1..] + b;
      }
      assert forall p :: p in a[1..] ==> p in a[1..] + b;
    }
  }

  lemma {:induction false} ArrangedStays(open: seq<string>, pinned: seq<string>)
    requires NoRepeats(open) && pinned <= open
    ensures ArrangeTabs(open, pinned) == Some(open)
  {
    assert open == pinned + open[|pinned|..];
    OutsidePrefix(pinned, open[|pinned|..]);
  }

  lemma PaneFields(pane: Pane)
    ensures var o := WritePane(pane).fields;
            && Get(o, "id") == Some(WritePaneId(pane.id)) && Get(o, "openPaths") == Some(JArray(Strings(pane.openPaths)))
            && Get(o, "pinnedPaths") == Some(JArray(Strings(pane.pinnedPaths))) && Get(o, "activePath") == Some(WriteActive(pane.activePath))
            && Get(o, "navigationHistory") == (if pane.history.None? then None else Some(WriteHistory(pane.history.value)))
  {
    hide Strings, WriteHistory, WriteActive, WritePaneId;
  }

  /** A pane as it may be handed over: its pinned tabs need not come first. */
  ghost predicate PaneFits(pane: Pane) {
    && |pane.openPaths| <= MAXIMUM_TABS && NoRepeats(pane.openPaths) && AllPathsOk(pane.openPaths)
    && NoRepeats(pane.pinnedPaths) && (forall p :: p in pane.pinnedPaths ==> p in pane.openPaths)
    && (match pane.activePath case Some(path) => path in pane.openPaths case None => pane.openPaths == [])
    && HistoryOk(pane.history)
  }

  function Arranged(pane: Pane): Pane {
    pane.(openPaths := pane.pinnedPaths + Outside(pane.openPaths, pane.pinnedPaths))
  }

  lemma {:induction false} FewerPinned(open: seq<string>, pinned: seq<string>)
    requires NoRepeats(open) && NoRepeats(pinned) && forall p :: p in pinned ==> p in open
    ensures ArrangeTabs(open, pinned) == Some(pinned + Outside(open, pinned))
    ensures forall p :: p in pinned + Outside(open, pinned) <==> p in open
    ensures |pinned + Outside(open, pinned)| == |open|
  {
    OutsideLength(open, pinned);
    OutsideMembers(open, pinned);
    hide NoRepeats, Outside;
  }

  lemma {:induction false} FittingActive(pane: Pane)
    requires PaneFits(pane)
    ensures ReadActive(Some(WriteActive(pane.activePath))).Some? ==> ReadActive(Some(WriteActive(pane.activePath))) == Some(pane.activePath)
    ensures AllKept(pane.openPaths) ==> ReadActive(Some(WriteActive(pane.activePath))) == Some(pane.activePath)
  {
    hide NormalizeWorkspacePath, PathOk, DriveAbsolute, HistoryOk, NoRepeats;
    if pane.activePath.Some? {
      NormalizedAgain(pane.activePath.value);
    }
  }

  /** A fitting pane is read with its pinned tabs moved to the front, unless the parser refuses one of its paths. */
  lemma {:induction false} FittingPaneReads(pane: Pane)
    requires PaneFits(pane)
    ensures NormalizePane(WritePane(pane)) == if PaneKept(pane) then Some(Arranged(pane)) else None
  {
    hide NormalizePaths, Strings, WriteHistory, WriteActive, ReadHistory, ReadActive, NoRepeats, Outside, ArrangeTabs, WritePane,
         AllPathsOk, HistoryOk, HistoryKept;
    PaneFields(pane);
    FittingActive(pane);
    FewerPinned(pane.openPaths, pane.pinnedPaths);
    StringsReadBack(pane.openPaths);
    PinnedPaths(pane);
    StringsReadBack(pane.pinnedPaths);
    HistoryReadsBack(pane.history);
    IsObject(pane);
    EmptyTabs(pane);
  }

  lemma IsObject(pane: Pane)
    ensures WritePane(pane).JObject? && ReadPaneId(Some(WritePaneId(pane.id))) == Some(pane.id)
  {
    hide Strings, WriteHistory, WriteActive;
  }

  lemma EmptyTabs(pane: Pane)
    requires PaneFits(pane)
    ensures var tabs := Arranged(pane).openPaths;
            match pane.activePath case Some(path) => path in tabs case None => tabs == []
  {
    FewerPinned(pane.openPaths, pane.pinnedPaths);
    hide NoRepeats, Outside, AllPathsOk, HistoryOk;
  }

  lemma PinnedPaths(pane: Pane)
    requires PaneFits(pane)
    ensures AllPathsOk(pane.pinnedPaths) && (AllKept(pane.openPaths) ==> AllKept(pane.pinnedPaths))
  {
    hide PathOk, DriveAbsolute, NoRepeats, HistoryOk;
  }

  lemma {:induction false} OkPaneFits(pane: Pane)
    requires PaneOk(pane)
    ensures PaneFits(pane) && Arranged(pane) == pane
  {
    hide PathOk, HistoryOk;
    ArrangedStays(pane.openPaths, pane.pinnedPaths);
    assert pane.openPaths == pane.pinnedPaths + pane.openPaths[|pane.pinnedPaths|..];
    DistinctParts(pane.pinnedPaths, pane.openPaths[|pane.pinnedPaths|..]);
  }

  lemma {:induction false} PaneReadsBack(pane: Pane)
    requires PaneOk(pane)
    ensures NormalizePane(WritePane(pane)) == if PaneKept(pane) then Some(pane) else None
  {
    hide PaneOk, PaneKept, NormalizePane, WritePane, Arranged, PaneFits;
    OkPaneFits(pane);
    FittingPaneReads(pane);
  }

  lemma {:induction false} PanesReadBack(panes: seq<Pane>)
    requires forall pane :: pane in panes ==> PaneOk(pane)
    ensures |WritePanes(panes)| == |panes|
    ensures NormalizePanes(WritePanes(panes)) == if forall pane :: pane in panes ==> PaneKept(pane) then Some(panes) else None
    decreases |panes|
  {
    hide PaneOk, PaneKept, NormalizePane, WritePane;
    if panes != [] {
      assert panes[0] in panes;
      PaneReadsBack(panes[0]);
      PanesReadBack(panes[1..]);
      HeadTail(panes);
      assert ([WritePane(panes[0])] + WritePanes(panes[1..]))[1..] == WritePanes(panes[1..]);
      assert (forall pane :: pane in panes ==> PaneKept(pane)) <==> PaneKept(panes[0]) && forall pane :: pane in panes[1..] ==> PaneKept(pane);
    }
  }

  lemma IdsReadBack(id: PaneId, direction: Option<Direction>)
    ensures ReadPaneId(Some(WritePaneId(id))) == Some(id)
    ensures ReadDirection(Some(WriteDirection(direction))) == Some(direction)
  {
  }

  /** An object whose layout keys are those of a state reads as that state, or is refused for one of its paths. */
  lemma {:induction false} LayoutReadsBack(o: Object, state: State)
    requires LayoutOk(state)
    requires Get(o, "vaultId") == Some(JString(state.vaultId)) && Get(o, "panes") == Some(JArray(WritePanes(state.panes)))
    requires Get(o, "activePaneId") == Some(WritePaneId(state.activePaneId)) && Get(o, "splitDirection") == Some(WriteDirection(state.splitDirection))
    ensures NormalizeVersionTwo(o, state.vaultId) == if StateKept(state) then Some(state) else None
  {
    hide PaneOk, PaneKept, NormalizePanes, WritePanes, WritePaneId, WriteDirection, ReadPaneId, ReadDirection;
    PanesReadBack(state.panes);
    IdsReadBack(state.activePaneId, state.splitDirection);
  }

  lemma LayoutFields(state: State)
    ensures var o := WriteLayout(state);
            && Get(o, "version") == Some(JNumber(2.0)) && Get(o, "vaultId") == Some(JString(state.vaultId))
            && Get(o, "panes") == Some(JArray(WritePanes(state.panes))) && Get(o, "activePaneId") == Some(WritePaneId(state.activePaneId))
            && Get(o, "splitDirection") == Some(WriteDirection(state.splitDirection))
  {
    hide WritePanes, WritePaneId, WriteDirection;
  }

  lemma DocumentFields(state: State)
    requires PaneIdsOk(state.panes, state.activePaneId, state.splitDirection)
    ensures var o := WriteDocument(state);
            && Get(o, "version") == Some(JNumber(1.0)) && Get(o, "layoutVersion") == Some(JNumber(2.0))
            && Get(o, "vaultId") == Some(JString(state.vaultId)) && Get(o, "panes") == Some(JArray(WritePanes(state.panes)))
            && Get(o, "activePaneId") == Some(WritePaneId(state.activePaneId)) && Get(o, "splitDirection") == Some(WriteDirection(state.splitDirection))
            && Get(o, "openPaths") == Some(JArray(Strings(ActivePane(state).openPaths)))
            && Get(o, "activePath") == Some(WriteActive(ActivePane(state).activePath))
  {
    hide WritePanes, WritePaneId, WriteDirection, Strings, WriteActive, ActivePane;
  }

  /** The version 2 form of a state reads back as that state exactly when no path starts with a drive. */
  lemma {:induction false} StateReadsBack(state: State)
    requires LayoutOk(state)
    ensures ParseWorkspaceState(JObject(WriteLayout(state)), state.vaultId) == if StateKept(state) then Some(state) else None
  {
    hide WriteLayout, NormalizeVersionTwo, NormalizeCompatible, MigrateVersionOne, StateKept;
    LayoutFields(state);
    LayoutReadsBack(WriteLayout(state), state);
  }

  /** The version 1 part of the document reads as the active pane without its pinned tabs and history. */
  lemma {:induction false} LegacyReadsBack(state: State)
    requires LayoutOk(state) && StateKept(state)
    ensures MigrateVersionOne(WriteDocument(state), state.vaultId).Some?
    ensures var legacy := MigrateVersionOne(WriteDocument(state), state.vaultId).value;
            LayoutOk(legacy) && ActivePane(legacy).openPaths == ActivePane(state).openPaths && ActivePane(legacy).activePath == ActivePane(state).activePath
  {
    var active := ActivePane(state);
    var pane := JObject(WriteLegacyPane(active));
    var o := map["vaultId" := JString(state.vaultId), "panes" := JArray([pane]), "activePaneId" := JString("primary"), "splitDirection" := JNull];
    ActiveIsPane(state);
    LegacyPaneReads(active);
    DocumentFields(state);
    VersionTwoOk(o, state.vaultId);
    hide WriteDocument, PaneOk, PaneKept, NormalizePane, Strings, WriteActive, ReadPaneId, ReadDirection, StateKept;
    assert WriteActive(active.activePath) == JNull || IsString(Some(WriteActive(active.activePath))) by { ActiveIsJson(active); }
    OnlyPane(o, pane, state.vaultId, Pane(Primary, active.openPaths, [], active.activePath, None));
  }

  lemma ActiveIsJson(pane: Pane)
    ensures WriteActive(pane.activePath) == JNull || IsString(Some(WriteActive(pane.activePath)))
  {
  }

  lemma ActiveIsPane(state: State)
    requires LayoutOk(state)
    ensures PaneOk(ActivePane(state)) && (StateKept(state) ==> PaneKept(ActivePane(state)))
  {
    hide PaneOk, PaneKept;
    assert ActivePane(state) in state.panes;
  }

  function WriteLegacyPane(active: Pane): Object {
    map["id" := JString("primary"), "openPaths" := JArray(Strings(active.openPaths)), "activePath" := WriteActive(active.activePath)]
  }

  lemma LegacyFields(active: Pane)
    ensures var o := WriteLegacyPane(active);
            && Get(o, "id") == Some(JString("primary")) && Get(o, "openPaths") == Some(JArray(Strings(active.openPaths)))
            && Get(o, "activePath") == Some(WriteActive(active.activePath)) && Get(o, "pinnedPaths") == None && Get(o, "navigationHistory") == None
  {
    hide Strings, WriteActive;
  }

  lemma UnpinnedTabs(open: seq<string>)
    requires NoRepeats(open)
    ensures ArrangeTabs(open, []) == Some(open) && NormalizePaths([]) == Some([])
  {
    EverythingOutside(open, []);
    assert NoRepeats([]) && [] + open == open;
    hide NoRepeats, Outside;
  }

  lemma {:induction false} LegacyPaneReads(active: Pane)
    requires PaneOk(active) && PaneKept(active)
    ensures NormalizePane(JObject(WriteLegacyPane(active))) == Some(Pane(Primary, active.openPaths, [], active.activePath, None))
  {
    hide Strings, WriteActive, ReadActive, NormalizePaths, ArrangeTabs, AllPathsOk, HistoryOk, AllKept, NoRepeats, Outside, WriteLegacyPane;
    LegacyFields(active);
    ActiveReadsBack(active);
    StringsReadBack(active.openPaths);
    UnpinnedTabs(active.openPaths);
  }

  lemma OnlyPane(o: Object, pane: Json, vaultId: string, read: Pane)
    requires o == map["vaultId" := JString(vaultId), "panes" := JArray([pane]), "activePaneId" := JString("primary"), "splitDirection" := JNull]
    requires NormalizePane(pane) == Some(read) && read.id == Primary
    ensures NormalizeVersionTwo(o, vaultId) == Some(State(vaultId, [read], Primary, None))
  {
    hide NormalizePane;
    assert [pane][1..] == [] && NormalizePanes([pane][1..]) == Some([]);
    assert [read] + [] == [read];
    assert NormalizePanes([pane]) == Some([read]);
    assert Get(o, "vaultId") == Some(JString(vaultId)) && Get(o, "panes") == Some(JArray([pane]));
    assert Get(o, "activePaneId") == Some(JString("primary")) && Get(o, "splitDirection") == Some(JNull);
    hide NormalizePanes;
  }

  /** A state is written exactly when no path starts with a drive, and then its document reads back as that state. */
  lemma {:induction false} DocumentReadsBack(state: State)
    requires LayoutOk(state)
    ensures CreateWorkspaceStateDocument(state).Some? <==> StateKept(state)
    ensures StateKept(state) ==>
      ParseWorkspaceState(JObject(CreateWorkspaceStateDocument(state).value), state.vaultId) == Some(state)
  {
    hide LayoutOk, WriteLayout, WriteDocument, NormalizeVersionTwo, MigrateVersionOne, StateKept, ActivePane;
    StateReadsBack(state);
    if StateKept(state) {
      IdsOf(state);
      DocumentFields(state);
      LayoutReadsBack(WriteDocument(state), state);
      LegacyReadsBack(state);
    }
  }

  lemma IdsOf(state: State)
    requires LayoutOk(state)
    ensures PaneIdsOk(state.panes, state.activePaneId, state.splitDirection) && VaultIdOk(state.vaultId)
  {
    hide PaneOk;
  }

  // ---------- moving a tab ----------

  function IndexOf(paths: seq<string>, path: string): (i: nat)
    ensures i <= |paths|
    ensures i < |paths| ==> paths[i] == path
    ensures i == |paths| <==> path !in paths
  {
    if paths == [] || paths[0] == path then 0 else 1 + IndexOf(paths[1..], path)
  }

  function PaneIndex(panes: seq<Pane>, id: PaneId): (i: nat)
    ensures i <= |panes|
    ensures i < |panes| ==> panes[i].id == id
  {
    if panes == [] || panes[0].id == id then 0 else 1 + PaneIndex(panes[1..], id)
  }

  /** The host's rounding: halves go up. */
  function Round(x: real): int {
    (x + 0.5).Floor
  }

  function Clamp(low: int, high: int, x: int): int {
    if x < low then low else if x > high then high else x
  }

  /** Where the tab at `source` goes, counted after it was taken out. */
  function InsertionIndex(count: nat, pinnedCount: nat, source: nat, target: real): (i: nat)
    requires pinnedCount <= count && source < count
    ensures i < count
    ensures source < pinnedCount <==> i < pinnedCount
  {
    var start, end := if source < pinnedCount then 0 else pinnedCount, if source < pinnedCount then pinnedCount else count;
    var requested := Clamp(start, end, Round(target));
    if source < requested then requested - 1 else requested
  }

  function Moved(paths: seq<string>, source: nat, insertion: nat): seq<string>
    requires source < |paths| && insertion < |paths|
  {
    var rest := paths[..source] + paths[source + 1..];
    rest[..insertion] + [paths[source]] + rest[insertion..]
  }

  function WithTabs(state: State, k: nat, tabs: seq<string>): State
    requires k < |state.panes|
  {
    state.(panes := state.panes[k := state.panes[k].(openPaths := tabs)])
  }

  /** The tabs after the move, before the pane is normalized again. */
  function MovedTabs(pane: Pane, path: string, target: real): seq<string>
    requires path in pane.openPaths && |pane.pinnedPaths| <= |pane.openPaths|
  {
    var source := IndexOf(pane.openPaths, path);
    Moved(pane.openPaths, source, InsertionIndex(|pane.openPaths|, |pane.pinnedPaths|, source, target))
  }

  ghost function PaneAt(state: State, k: nat): (pane: Pane)
    requires LayoutOk(state) && k < |state.panes|
    ensures PaneOk(pane) && |pane.pinnedPaths| <= |pane.openPaths|
  {
    assert state.panes[k] in state.panes;
    state.panes[k]
  }

  /** What a reorder comes to: a pinned tab stays, another one moves, and a path that starts with a drive refuses both. */
  ghost function Reordered(state: State, paneId: PaneId, filePath: string, target: real): Option<State>
    requires LayoutOk(state)
  {
    var normalized, k := NormalizeWorkspacePath(filePath), PaneIndex(state.panes, paneId);
    if normalized.None? || k == |state.panes| || normalized.value !in PaneAt(state, k).openPaths then None
    else
      var pane, path := PaneAt(state, k), normalized.value;
      var tabs := MovedTabs(pane, path, target);
      if tabs == pane.openPaths then Some(state)
      else if !StateKept(state) then None
      else if path in pane.pinnedPaths then Some(state)
      else Some(WithTabs(state, k, tabs))
  }

  /** Answers None where the original throws. */
  method ReorderWorkspaceTab(state: State, paneId: PaneId, filePath: string, targetIndex: real) returns (r: Option<State>)
    requires LayoutOk(state)
    ensures r == Reordered(state, paneId, filePath, targetIndex)
  {
    hide NormalizeWorkspacePath, LayoutOk, StateKept, WriteLayout, ParseWorkspaceState, MovedTabs, CreateWorkspaceLayout;
    var normalized := NormalizeWorkspacePath(filePath);
    if normalized.None? {
      return None;
    }
    var path := normalized.value;
    var k := PaneIndex(state.panes, paneId);
    if k == |state.panes| {
      return None;
    }
    var pane := state.panes[k];
    var source := IndexOf(pane.openPaths, path);
    if source == |pane.openPaths| {
      return None;
    }
    PinnedAtFront(state, k);
    var pinnedCount := |pane.pinnedPaths|;
    var start, end := if source < pinnedCount then 0 else pinnedCount, if source < pinnedCount then pinnedCount else |pane.openPaths|;
    var requested := Clamp(start, end, Round(targetIndex));
    var nextPaths := pane.openPaths[..source] + pane.openPaths[source + 1..];
    var insertion := if source < requested then requested - 1 else requested;
    nextPaths := nextPaths[..insertion] + [path] + nextPaths[insertion..];
    SplicesMove(pane, path, targetIndex, nextPaths, insertion);
    if nextPaths == pane.openPaths {
      return Some(state);
    }
    MovedLayout(state, k, path, targetIndex);
    r := CreateWorkspaceLayout(WithTabs(state, k, nextPaths));
  }

  lemma SplicesMove(pane: Pane, path: string, target: real, tabs: seq<string>, insertion: nat)
    requires path in pane.openPaths && |pane.pinnedPaths| <= |pane.openPaths|
    requires var source := IndexOf(pane.openPaths, path);
             var rest := pane.openPaths[..source] + pane.openPaths[source + 1..];
             && insertion == InsertionIndex(|pane.openPaths|, |pane.pinnedPaths|, source, target)
             && insertion <= |rest| && tabs == rest[..insertion] + [path] + rest[insertion..]
    ensures tabs == MovedTabs(pane, path, target)
  {
  }

  lemma PinnedAtFront(state: State, k: nat)
    requires LayoutOk(state) && k < |state.panes|
    ensures PaneOk(state.panes[k]) && |state.panes[k].pinnedPaths| <= |state.panes[k].openPaths|
  {
    assert state.panes[k] in state.panes;
  }

  lemma {:induction false} InsertDistinct(a: seq<string>, x: string, b: seq<string>)
    ensures NoRepeats(a + [x] + b) <==> NoRepeats(a + b) && x !in a + b
    decreases |a|
  {
    if a == [] {
      assert a + [x] + b == [x] + b && a + b == b && ([x] + b)[1..] == b;
    } else {
      assert (a + [x] + b)[1..] == a[1..] + [x] + b && (a + b)[1..] == a[1..] + b;
      assert (a + [x] + b)[0] == a[0] && (a + b)[0] == a[0];
      InsertDistinct(a[1..], x, b);
      assert forall p :: p in a[1..] + [x] + b <==> p == x || p in a[1..] + b;
      assert forall p :: p in a + b <==> p == a[0] || p in a[1..] + b;
    }
  }

  lemma {:induction false} OutsideInserted(a: seq<string>, x: string, b: seq<string>, others: seq<string>)
    requires x in others
    ensures Outside(a + [x] + b, others) == Outside(a + b, others)
  {
    OutsideOfOthers(a + [x], b, others);
    OutsideOfOthers(a, [x], others);
    OutsideOfOthers(a, b, others);
    assert Outside([x], others) == [] && Outside(a, others) + [] == Outside(a, others);
  }

  lemma SplitAt(paths: seq<string>, i: nat)
    requires i < |paths|
    ensures paths == paths[..i] + [paths[i]] + paths[i + 1..]
  {
  }

  lemma CutAt(paths: seq<string>, i: nat)
    requires i <= |paths|
    ensures paths[..i] + paths[i..] == paths
  {
  }

  /** Moving keeps every tab, keeps the order of the others, and puts the tab where it was asked for. */
  lemma {:induction false} MovedKeeps(paths: seq<string>, source: nat, insertion: nat)
    requires source < |paths| && insertion < |paths| && NoRepeats(paths)
    ensures var next := Moved(paths, source, insertion);
            && |next| == |paths| && NoRepeats(next) && next[insertion] == paths[source]
            && (forall p :: p in next <==> p in paths)
            && forall others :: paths[source] in others ==> Outside(next, others) == Outside(paths, others)
  {
    var x, a, b := paths[source], paths[..source], paths[source + 1..];
    var rest := a + b;
    SplitAt(paths, source);
    CutAt(rest, insertion);
    InsertDistinct(a, x, b);
    InsertDistinct(rest[..insertion], x, rest[insertion..]);
    forall others | x in others ensures Outside(Moved(paths, source, insertion), others) == Outside(paths, others) {
      OutsideInserted(a, x, b, others);
      OutsideInserted(rest[..insertion], x, rest[insertion..], others);
    }
    hide NoRepeats, Outside;
    MovedMembers(paths, source, insertion);
  }

  lemma MovedMembers(paths: seq<string>, source: nat, insertion: nat)
    requires source < |paths| && insertion < |paths|
    ensures var next := Moved(paths, source, insertion);
            |next| == |paths| && next[insertion] == paths[source] && forall p :: p in next <==> p in paths
  {
    var a, b := paths[..source], paths[source + 1..];
    var rest := a + b;
    SplitAt(paths, source);
    CutAt(rest, insertion);
    assert forall p :: p in paths <==> p == paths[source] || p in rest;
    assert forall p :: p in Moved(paths, source, insertion) <==> p == paths[source] || p in rest[..insertion] + rest[insertion..];
  }

  /** A move behind the first `n` tabs leaves these as they are. */
  lemma {:induction false} FrontStays(paths: seq<string>, n: nat, source: nat, insertion: nat)
    requires n <= source < |paths| && n <= insertion < |paths|
    ensures Moved(paths, source, insertion)[..n] == paths[..n]
  {
    var rest := paths[..source] + paths[source + 1..];
    assert rest[..n] == paths[..n];
    assert rest[..insertion][..n] == rest[..n];
  }

  /** The pane after a move fits; arranged, its pinned tabs are as before, and so is everything if the tab was pinned. */
  lemma {:induction false} MovedPane(pane: Pane, path: string, target: real)
    requires PaneOk(pane) && path in pane.openPaths
    ensures var tabs := MovedTabs(pane, path, target);
            && PaneFits(pane.(openPaths := tabs))
            && (path in pane.pinnedPaths ==> Arranged(pane.(openPaths := tabs)) == pane)
            && (path !in pane.pinnedPaths ==> Arranged(pane.(openPaths := tabs)) == pane.(openPaths := tabs))
            && (PaneKept(pane.(openPaths := tabs)) <==> PaneKept(pane))
  {
    var open, pinned := pane.openPaths, pane.pinnedPaths;
    var source := IndexOf(open, path);
    var insertion := InsertionIndex(|open|, |pinned|, source, target);
    var tabs := Moved(open, source, insertion);
    MovedKeeps(open, source, insertion);
    OkPaneFits(pane);
    PinnedIsAhead(pane, source);
    hide NoRepeats, Outside, PathOk, HistoryOk, DriveAbsolute, HistoryKept, Moved, InsertionIndex;
    if path in pinned {
      assert Outside(tabs, pinned) == Outside(open, pinned);
    } else {
      FrontStays(open, |pinned|, source, insertion);
      FrontPinned(tabs, pinned);
    }
  }

  lemma FrontPinned(tabs: seq<string>, pinned: seq<string>)
    requires |pinned| <= |tabs| && tabs[..|pinned|] == pinned && NoRepeats(tabs)
    ensures pinned + Outside(tabs, pinned) == tabs
  {
    CutAt(tabs, |pinned|);
    OutsidePrefix(pinned, tabs[|pinned|..]);
  }

  lemma {:induction false} PinnedIsAhead(pane: Pane, source: nat)
    requires PaneOk(pane) && source < |pane.openPaths|
    ensures pane.openPaths[source] in pane.pinnedPaths <==> source < |pane.pinnedPaths|
  {
    var n := |pane.pinnedPaths|;
    CutAt(pane.openPaths, n);
    DistinctParts(pane.openPaths[..n], pane.openPaths[n..]);
    hide NoRepeats, PathOk, HistoryOk;
    assert pane.openPaths[..n] == pane.pinnedPaths;
    if source < n {
      assert pane.openPaths[..n][source] == pane.openPaths[source];
    } else {
      assert pane.openPaths[n..][source - n] == pane.openPaths[source];
    }
  }

  function ArrangedAll(panes: seq<Pane>): (r: seq<Pane>)
    ensures |r| == |panes| && forall i :: 0 <= i < |panes| ==> r[i] == Arranged(panes[i])
  {
    seq(|panes|, i requires 0 <= i < |panes| => Arranged(panes[i]))
  }

  lemma {:induction false} FittingPanesRead(panes: seq<Pane>)
    requires forall pane :: pane in panes ==> PaneFits(pane)
    ensures |WritePanes(panes)| == |panes|
    ensures NormalizePanes(WritePanes(panes)) == if forall pane :: pane in panes ==> PaneKept(pane) then Some(ArrangedAll(panes)) else None
    decreases |panes|
  {
    hide PaneFits, PaneKept, NormalizePane, WritePane, Arranged;
    if panes != [] {
      assert panes[0] in panes;
      FittingPaneReads(panes[0]);
      FittingPanesRead(panes[1..]);
      HeadTail(panes);
      assert ([WritePane(panes[0])] + WritePanes(panes[1..]))[1..] == WritePanes(panes[1..]);
      assert ArrangedAll(panes) == [Arranged(panes[0])] + ArrangedAll(panes[1..]);
      assert (forall pane :: pane in panes ==> PaneKept(pane)) <==> PaneKept(panes[0]) && forall pane :: pane in panes[1..] ==> PaneKept(pane);
    }
  }

  /** What reading a moved layout gives. */
  lemma {:induction false} MovedLayout(state: State, k: nat, path: string, target: real)
    requires LayoutOk(state) && k < |state.panes| && path in state.panes[k].openPaths && |state.panes[k].pinnedPaths| <= |state.panes[k].openPaths|
    ensures var pane := state.panes[k];
            var tabs := MovedTabs(pane, path, target);
            CreateWorkspaceLayout(WithTabs(state, k, tabs))
            == if !StateKept(state) then None
               else if path in pane.pinnedPaths then Some(state)
               else Some(WithTabs(state, k, tabs))
  {
    hide PaneOk, PaneFits, PaneKept, Arranged, MovedTabs, NormalizeVersionTwo, WriteLayout;
    var pane := state.panes[k];
    var tabs := MovedTabs(pane, path, target);
    var moved := WithTabs(state, k, tabs);
    PinnedAtFront(state, k);
    MovedPane(pane, path, target);
    PanesMoved(state, k, tabs, path in pane.pinnedPaths);
    FittingPanesRead(moved.panes);
    LayoutFields(moved);
    LayoutReads(WriteLayout(moved), moved, if path in pane.pinnedPaths then state else moved);
  }

  /** All panes but the moved one are arranged already. */
  lemma {:induction false} PanesMoved(state: State, k: nat, tabs: seq<string>, back: bool)
    requires LayoutOk(state) && k < |state.panes|
    requires var pane := state.panes[k].(openPaths := tabs);
             && PaneFits(pane) && (PaneKept(pane) <==> PaneKept(state.panes[k]))
             && Arranged(pane) == if back then state.panes[k] else pane
    ensures var moved := WithTabs(state, k, tabs).panes;
            && (forall pane :: pane in moved ==> PaneFits(pane))
            && ((forall pane :: pane in moved ==> PaneKept(pane)) <==> StateKept(state))
            && ArrangedAll(moved) == if back then state.panes else moved
  {
    hide PaneOk, PaneFits, PaneKept, Arranged;
    var moved := WithTabs(state, k, tabs).panes;
    forall i | 0 <= i < |moved| ensures PaneFits(moved[i]) && (PaneKept(moved[i]) <==> PaneKept(state.panes[i])) && (i != k ==> Arranged(moved[i]) == state.panes[i]) {
      if i != k {
        assert state.panes[i] in state.panes;
        OkPaneFits(state.panes[i]);
      }
    }
    assert forall i :: 0 <= i < |moved| ==> moved[i] in moved && state.panes[i] in state.panes;
  }

  lemma {:induction false} LayoutReads(o: Object, written: State, read: State)
    requires VaultIdOk(written.vaultId) && read.vaultId == written.vaultId && read.activePaneId == written.activePaneId
    requires read.splitDirection == written.splitDirection && PaneIdsOk(read.panes, read.activePaneId, read.splitDirection)
    requires Get(o, "version") == Some(JNumber(2.0)) && Get(o, "vaultId") == Some(JString(written.vaultId))
    requires Get(o, "panes") == Some(JArray(WritePanes(written.panes))) && Get(o, "activePaneId") == Some(WritePaneId(written.activePaneId))
    requires Get(o, "splitDirection") == Some(WriteDirection(written.splitDirection))
    requires |WritePanes(written.panes)| == |written.panes| == |read.panes|
    requires NormalizePanes(WritePanes(written.panes)) == None || NormalizePanes(WritePanes(written.panes)) == Some(read.panes)
    ensures ParseWorkspaceState(JObject(o), written.vaultId)
         == if NormalizePanes(WritePanes(written.panes)).Some? then Some(read) else None
  {
    hide NormalizePanes, WritePanes, WritePaneId, WriteDirection, ReadPaneId, ReadDirection, NormalizeCompatible, MigrateVersionOne;
    IdsReadBack(written.activePaneId, written.splitDirection);
  }

  /**
   * Reordering never breaks the layout. A pinned tab stays where it was, and the move of any other
   * tab keeps the pinned prefix, every tab, and the order of the others.
   */
  lemma {:induction false} ReorderedIsOk(state: State, k: nat, path: string, target: real)
    requires LayoutOk(state) && StateKept(state) && k < |state.panes| && path in PaneAt(state, k).openPaths && path !in PaneAt(state, k).pinnedPaths
    ensures var pane := PaneAt(state, k);
            var tabs := MovedTabs(pane, path, target);
            && LayoutOk(WithTabs(state, k, tabs)) && StateKept(WithTabs(state, k, tabs))
            && pane.pinnedPaths <= tabs && |tabs| == |pane.openPaths| && (forall p :: p in tabs <==> p in pane.openPaths)
            && Outside(tabs, [path]) == Outside(pane.openPaths, [path])
  {
    var pane := PaneAt(state, k);
    var tabs := MovedTabs(pane, path, target);
    var source := IndexOf(pane.openPaths, path);
    MovedKeeps(pane.openPaths, source, InsertionIndex(|pane.openPaths|, |pane.pinnedPaths|, source, target));
    MovedPane(pane, path, target);
    hide PaneFits, PaneKept, HistoryOk, PathOk, NoRepeats, Outside, Moved, InsertionIndex;
    MovedPaneOk(pane, path, target);
    forall p | p in WithTabs(state, k, tabs).panes ensures PaneOk(p) && PaneKept(p) {
      var i :| 0 <= i < |state.panes| && WithTabs(state, k, tabs).panes[i] == p;
      assert state.panes[i] in state.panes;
    }
  }

  lemma {:induction false} MovedPaneOk(pane: Pane, path: string, target: real)
    requires PaneOk(pane) && path in pane.openPaths && path !in pane.pinnedPaths
    ensures PaneOk(pane.(openPaths := MovedTabs(pane, path, target)))
  {
    MovedPane(pane, path, target);
    hide NoRepeats, Outside, HistoryOk, PathOk, MovedTabs;
  }

  /** A state with a drive path, which reading accepts behind `./`, can be neither written nor reordered. */
  lemma {:induction false} DrivePathIsStuck(path: string, vaultId: string)
    requires IsVaultPath(path) && DriveAbsolute(path) && VaultIdOk(vaultId)
    ensures var pane := JObject(map["id" := JString("primary"), "openPaths" := JArray([JString("./" + path)]), "activePath" := JString("./" + path)]);
            var read := NormalizePane(pane);
            NormalizeWorkspacePath(path) == None
            && read == Some(Pane(Primary, [path], [], Some(path), None)) && NormalizePane(WritePane(read.value)) == None
  {
    DriveBehindDot(path);
    DriveIsNoConfig(path);
    NormalizedIsOk("./" + path);
    DrivePaneReads(path);
    var pane := Pane(Primary, [path], [], Some(path), None);
    assert NoRepeats([path]) && path in [path];
    PaneReadsBack(pane);
  }

  lemma DriveIsNoConfig(path: string)
    requires DriveAbsolute(path)
    ensures !StartsWith(Lower(path), ".obsidian/")
  {
    assert Lower(path)[0] == LowerChar(path[0]);
  }

  lemma DrivePaneReads(path: string)
    requires NormalizeWorkspacePath("./" + path) == Some(path)
    ensures NormalizePane(JObject(map["id" := JString("primary"), "openPaths" := JArray([JString("./" + path)]), "activePath" := JString("./" + path)]))
         == Some(Pane(Primary, [path], [], Some(path), None))
  {
    hide NormalizeWorkspacePath;
    var items := [JString("./" + path)];
    assert items[1..] == [] && NormalizePaths(items[1..]) == Some([]) && [path] + [] == [path];
    assert NormalizePaths(items) == Some([path]);
    assert NoRepeats([path]) by { assert [path][1..] == []; }
    UnpinnedTabs([path]);
    var o := map["id" := JString("primary"), "openPaths" := JArray(items), "activePath" := JString("./" + path)];
    assert Get(o, "id") == Some(JString("primary")) && Get(o, "openPaths") == Some(JArray(items));
    assert Get(o, "activePath") == Some(JString("./" + path)) && Get(o, "pinnedPaths") == None && Get(o, "navigationHistory") == None;
    hide NormalizePaths, ArrangeTabs, NoRepeats;
  }

  datatype Move = Move(paneId: PaneId, filePath: string, target: real)

  /** The state after a run of reorders; one that throws leaves it as it was. */
  ghost function AfterMoves(state: State, moves: seq<Move>): (r: State)
    requires LayoutOk(state)
    ensures LayoutOk(r)
    decreases |moves|
  {
    if moves == [] then state
    else
      var next := Reordered(state, moves[0].paneId, moves[0].filePath, moves[0].target);
      ReorderKeepsLayout(state, moves[0].paneId, moves[0].filePath, moves[0].target);
      AfterMoves(if next.Some? then next.value else state, moves[1..])
  }

  lemma {:induction false} ReorderKeepsLayout(state: State, paneId: PaneId, filePath: string, target: real)
    requires LayoutOk(state)
    ensures var r := Reordered(state, paneId, filePath, target);
            r.Some? ==> LayoutOk(r.value) && (StateKept(r.value) <==> StateKept(state)) && r.value.vaultId == state.vaultId
  {
    hide NormalizeWorkspacePath, LayoutOk, StateKept, MovedTabs;
    var normalized, k := NormalizeWorkspacePath(filePath), PaneIndex(state.panes, paneId);
    if StateKept(state) && normalized.Some? && k < |state.panes| {
      var pane, path := PaneAt(state, k), normalized.value;
      if path in pane.openPaths && path !in pane.pinnedPaths {
        ReorderedIsOk(state, k, path, target);
      }
    }
  }

  /** Over any run of reorders a state that could be written still can, and its document reads back as it. */
  lemma {:induction false} RunReadsBack(state: State, moves: seq<Move>)
    requires LayoutOk(state) && StateKept(state)
    ensures var after := AfterMoves(state, moves);
            CreateWorkspaceStateDocument(after).Some?
            && ParseWorkspaceState(JObject(CreateWorkspaceStateDocument(after).value), after.vaultId) == Some(after)
    decreases |moves|
  {
    hide LayoutOk, StateKept, Reordered, CreateWorkspaceStateDocument, ParseWorkspaceState;
    if moves == [] {
      DocumentReadsBack(state);
    } else {
      var next := Reordered(state, moves[0].paneId, moves[0].filePath, moves[0].target);
      ReorderKeepsLayout(state, moves[0].paneId, moves[0].filePath, moves[0].target);
      RunReadsBack(if next.Some? then next.value else state, moves[1..]);
    }
  }

  // ---------- where a tab goes ----------

  /** The whole number in a range that lies nearest to the target, the greater one of two. */
  ghost predicate Nearest(low: int, high: int, target: real, gap: int) {
    && low <= gap <= high
    && forall other: int :: low <= other <= high && other != gap ==>
         Apart(gap, target) < Apart(other, target) || (Apart(gap, target) == Apart(other, target) && other < gap)
  }

  function Apart(n: int, target: real): real {
    if n as real < target then target - n as real else n as real - target
  }

  lemma RoundIsNearest(low: int, high: int, target: real)
    requires low <= high
    ensures Nearest(low, high, target, Clamp(low, high, Round(target)))
  {
    var n := Round(target);
    assert n as real <= target + 0.5 < n as real + 1.0;
    forall other: int | low <= other <= high && other != Clamp(low, high, n)
      ensures Apart(Clamp(low, high, n), target) < Apart(other, target)
              || (Apart(Clamp(low, high, n), target) == Apart(other, target) && other < Clamp(low, high, n)) {
      NearerThan(n, Clamp(low, high, n), other, low, high, target);
    }
  }

  lemma NearerThan(n: int, gap: int, other: int, low: int, high: int, target: real)
    requires n as real <= target + 0.5 < n as real + 1.0 && low <= other <= high && other != gap
    requires gap == Clamp(low, high, n) && low <= high
    ensures Apart(gap, target) < Apart(other, target) || (Apart(gap, target) == Apart(other, target) && other < gap)
  {
    if other < gap {
      assert other as real <= gap as real - 1.0;
    } else {
      assert other as real >= gap as real + 1.0;
    }
  }

  lemma {:induction false} IndexAt(paths: seq<string>, i: nat)
    requires i < |paths| && NoRepeats(paths)
    ensures IndexOf(paths, paths[i]) == i
    decreases |paths|
  {
    if i > 0 {
      assert paths[i] == paths[1..][i - 1];
      IndexAt(paths[1..], i - 1);
    }
  }

  /** A tab that was taken out comes behind exactly the tabs that stood in front of the gap. */
  lemma {:induction false} MovedIntoGap(paths: seq<string>, source: nat, gap: nat, j: nat)
    requires source < |paths| && gap <= |paths| && j < |paths| && j != source && NoRepeats(paths)
    requires gap == |paths| ==> source < gap
    ensures var next := Moved(paths, source, if source < gap then gap - 1 else gap);
            IndexOf(next, paths[j]) < IndexOf(next, paths[source]) <==> j < gap
  {
    var insertion := if source < gap then gap - 1 else gap;
    var rest, next := paths[..source] + paths[source + 1..], Moved(paths, source, insertion);
    MovedKeeps(paths, source, insertion);
    var within := if j < source then j else j - 1;
    assert rest[within] == paths[j];
    var at := if within < insertion then within else within + 1;
    assert next[at] == paths[j];
    hide NoRepeats, Moved, Outside;
    IndexAt(next, at);
    IndexAt(next, insertion);
  }

  /**
   * A reorder that does not throw changes nothing but the tabs of the pane. A pinned tab stays where
   * it is; any other one comes behind exactly the tabs in front of the gap nearest to the target.
   */
  lemma {:induction false} ReorderMoves(state: State, paneId: PaneId, filePath: string, target: real, k: nat, path: string)
    requires LayoutOk(state) && Reordered(state, paneId, filePath, target).Some?
    requires NormalizeWorkspacePath(filePath) == Some(path) && k == PaneIndex(state.panes, paneId)
    ensures k < |state.panes| && path in state.panes[k].openPaths
    ensures var pane, after := state.panes[k], Reordered(state, paneId, filePath, target).value;
            && |after.panes| == |state.panes| && after == state.(panes := after.panes)
            && (forall i :: 0 <= i < |state.panes| && i != k ==> after.panes[i] == state.panes[i])
            && after.panes[k] == pane.(openPaths := after.panes[k].openPaths)
            && |after.panes[k].openPaths| == |pane.openPaths| && (forall p :: p in after.panes[k].openPaths <==> p in pane.openPaths)
            && Outside(after.panes[k].openPaths, [path]) == Outside(pane.openPaths, [path])
            && (path in pane.pinnedPaths ==> after == state)
            && (path !in pane.pinnedPaths ==> GapTaken(pane, path, target, after.panes[k].openPaths))
  {
    hide NormalizeWorkspacePath, StateKept, LayoutOk, MovedTabs, PaneOk, Outside;
    var pane := state.panes[k];
    PinnedAtFront(state, k);
    TabsMove(pane, path, target);
  }

  /** The gap nearest to the target among those behind the pinned tabs, and what stands before and after it. */
  ghost predicate GapTaken(pane: Pane, path: string, target: real, tabs: seq<string>) {
    exists gap: nat :: Nearest(|pane.pinnedPaths|, |pane.openPaths|, target, gap)
      && forall j :: 0 <= j < |pane.openPaths| && pane.openPaths[j] != path ==>
           (IndexOf(tabs, pane.openPaths[j]) < IndexOf(tabs, path) <==> j < gap)
  }

  lemma {:induction false} TabsMove(pane: Pane, path: string, target: real)
    requires PaneOk(pane) && path in pane.openPaths && |pane.pinnedPaths| <= |pane.openPaths|
    ensures var tabs := MovedTabs(pane, path, target);
            && |tabs| == |pane.openPaths| && (forall p :: p in tabs <==> p in pane.openPaths)
            && Outside(tabs, [path]) == Outside(pane.openPaths, [path])
            && (path !in pane.pinnedPaths ==> GapTaken(pane, path, target, tabs))
  {
    var open, pinned := pane.openPaths, pane.pinnedPaths;
    var source := IndexOf(open, path);
    UnpinnedComesAfter(pane, path);
    hide PaneOk, NoRepeats, Outside;
    MovedKeeps(open, source, InsertionIndex(|open|, |pinned|, source, target));
    hide Moved, GapTaken, InsertionIndex;
    if path !in pinned { GapIsTaken(pane, path, target); }
  }

  lemma {:induction false} GapIsTaken(pane: Pane, path: string, target: real)
    requires NoRepeats(pane.openPaths) && path in pane.openPaths && |pane.pinnedPaths| <= IndexOf(pane.openPaths, path)
    ensures GapTaken(pane, path, target, MovedTabs(pane, path, target))
  {
    var low, high, source := |pane.pinnedPaths|, |pane.openPaths|, IndexOf(pane.openPaths, path);
    var gap: nat := Clamp(low, high, Round(target));
    RoundIsNearest(low, high, target);
    var tabs := Moved(pane.openPaths, source, if source < gap then gap - 1 else gap);
    assert tabs == MovedTabs(pane, path, target);
    hide Nearest, Moved, Round, NoRepeats, MovedTabs;
    forall j | 0 <= j < high && pane.openPaths[j] != path ensures IndexOf(tabs, pane.openPaths[j]) < IndexOf(tabs, path) <==> j < gap {
      MovedIntoGap(pane.openPaths, source, gap, j);
    }
  }

  lemma UnpinnedComesAfter(pane: Pane, path: string)
    requires PaneOk(pane)
    ensures NoRepeats(pane.openPaths) && (path !in pane.pinnedPaths ==> IndexOf(pane.openPaths, path) >= |pane.pinnedPaths|)
  {
    var i := IndexOf(pane.openPaths, path);
    if i < |pane.pinnedPaths| && i < |pane.openPaths| {
      assert pane.pinnedPaths[i] == pane.openPaths[i];
    }
  }
}
