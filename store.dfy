/** The workspace store of lib/store.ts: the projects, the current project and
    screen, the session chat, the loading flag, the current component list
    and the data model, with the twelve actions that replace them.

    The store keeps plain values: `currentProject` and `currentScreen` are
    copies taken when they were selected, and actions that rebuild `projects`
    do not refresh them, as in the source. Ids from `generateId` and dates
    from `new Date()` are parameters. */
module Store {

  import opened Wrappers
  import opened Json
  import opened Types

  // ---------------------------------------------------------------------------
  // Lookups and filters by id
  // ---------------------------------------------------------------------------

  function ProjectKey(p: Project): string { p.id }
  function ScreenKey(s: Screen): string { s.id }

  /** `xs.find((x) => x.id === id)`. */
  function FindFirst<T>(xs: seq<T>, key: T -> string, id: string): Option<T>
    decreases |xs|
  {
    if xs == [] then None
    else if key(xs[0]) == id then Some(xs[0])
    else FindFirst(xs[1..], key, id)
  }

  /** `xs.filter((x) => x.id !== id)`. */
  function RemoveAll<T>(xs: seq<T>, key: T -> string, id: string): seq<T>
    decreases |xs|
  {
    if xs == [] then []
    else if key(xs[0]) == id then RemoveAll(xs[1..], key, id)
    else [xs[0]] + RemoveAll(xs[1..], key, id)
  }

  /** `find` yields the first element with the id, and nothing exactly when
      no element has it. */
  lemma {:induction false} FindFirstSpec<T>(xs: seq<T>, key: T -> string, id: string)
    ensures FindFirst(xs, key, id).None? <==> forall i :: 0 <= i < |xs| ==> key(xs[i]) != id
    ensures FindFirst(xs, key, id).Some? ==>
              exists k :: 0 <= k < |xs| && xs[k] == FindFirst(xs, key, id).value && key(xs[k]) == id
                && forall j :: 0 <= j < k ==> key(xs[j]) != id
    decreases |xs|
  {
    if xs != [] && key(xs[0]) != id {
      var rest := xs[1..];
      FindFirstSpec(rest, key, id);
      assert forall i :: 1 <= i < |xs| ==> xs[i] == rest[i - 1];
      if FindFirst(rest, key, id).Some? {
        var k :| 0 <= k < |rest| && rest[k] == FindFirst(rest, key, id).value && key(rest[k]) == id
                 && forall j :: 0 <= j < k ==> key(rest[j]) != id;
        assert xs[k + 1] == rest[k];
        forall j | 0 <= j < k + 1
          ensures key(xs[j]) != id
        {
          if j > 0 { assert xs[j] == rest[j - 1]; }
        }
      }
    } else if xs != [] {
      assert xs[0] == FindFirst(xs, key, id).value;
    }
  }

  /** The filter keeps exactly the elements with another id, in order, and
      keeps everything when no element has the id. */
  lemma {:induction false} RemoveAllSpec<T>(xs: seq<T>, key: T -> string, id: string)
    ensures |RemoveAll(xs, key, id)| <= |xs|
    ensures forall x :: x in RemoveAll(xs, key, id) <==> x in xs && key(x) != id
    ensures (forall i :: 0 <= i < |xs| ==> key(xs[i]) != id) ==> RemoveAll(xs, key, id) == xs
    decreases |xs|
  {
    if xs != [] {
      var rest := xs[1..];
      RemoveAllSpec(rest, key, id);
      assert forall x :: x in xs <==> x == xs[0] || x in rest;
      if forall i :: 0 <= i < |xs| ==> key(xs[i]) != id {
        assert forall i :: 0 <= i < |rest| ==> key(rest[i]) != id by {
          forall i | 0 <= i < |rest| ensures key(rest[i]) != id { assert rest[i] == xs[i + 1]; }
        }
        assert xs == [xs[0]] + rest;
      }
    }
  }

  /** The filter works element by element: an element with another id is
      kept in place and one with the id is dropped, so the kept elements stay
      in their original order. */
  lemma {:induction false} RemoveAllAppend<T>(a: seq<T>, b: seq<T>, key: T -> string, id: string)
    ensures RemoveAll(a + b, key, id) == RemoveAll(a, key, id) + RemoveAll(b, key, id)
    decreases |a|
  {
    if a == [] {
      assert a + b == b;
    } else {
      var ab := a + b;
      assert ab[1..] == a[1..] + b;
      assert ab[0] == a[0];
      RemoveAllAppend(a[1..], b, key, id);
    }
  }

  /** On one element the filter keeps it exactly when its id differs. */
  lemma RemoveAllOne<T>(x: T, key: T -> string, id: string)
    ensures RemoveAll([x], key, id) == if key(x) != id then [x] else []
  {
    assert [x][1..] == [];
  }

  /** `a?.id === id` for an id that is a string: false when `a` is absent. */
  predicate IdIs(id: string, target: Option<string>) {
    target.Some? && id == target.value
  }

  function ProjectId(p: Option<Project>): Option<string> {
    if p.Some? then Some(p.value.id) else None
  }

  function ScreenId(s: Option<Screen>): Option<string> {
    if s.Some? then Some(s.value.id) else None
  }

  // ---------------------------------------------------------------------------
  // Rebuilding the project list
  // ---------------------------------------------------------------------------

  /** The change an action makes to the screen it targets. */
  datatype ScreenEdit =
    | SetComponents(components: Option<seq<Node>>)       // setComponents, updateScreenContent
    | RecordMessage(history: seq<ChatMessage>, carried: Option<seq<Node>>)  // addChatMessage
    | ClearChat                                           // clearChatHistory
    | SetData(dataModel: Json)                            // updateDataModel

  /** `{ ...s, ... }` for one edit; a message without components keeps the
      screen's components (`message.components || s.components`). */
  function EditScreen(s: Screen, e: ScreenEdit): Screen {
    match e
    case SetComponents(c) => s.(components := c)
    case RecordMessage(h, c) => s.(chatHistory := h, components := if c.Some? then c else s.components)
    case ClearChat => s.(chatHistory := [])
    case SetData(d) => s.(dataModel := d)
  }

  /** `screens.map((s) => s.id === screenId ? edit(s) : s)`. */
  function EditScreens(screens: seq<Screen>, screenId: Option<string>, e: ScreenEdit): seq<Screen> {
    seq(|screens|, i requires 0 <= i < |screens| =>
          if IdIs(screens[i].id, screenId) then EditScreen(screens[i], e) else screens[i])
  }

  /** `projects.map((p) => p.id === projectId ? {...p, screens: ...} : p)`;
      `stamp` is the new `updatedAt` for the actions that set one. */
  function EditProjects(projects: seq<Project>, projectId: Option<string>, screenId: Option<string>,
                        e: ScreenEdit, stamp: Option<int>): seq<Project> {
    seq(|projects|, i requires 0 <= i < |projects| =>
          if IdIs(projects[i].id, projectId) then
            projects[i].(screens := EditScreens(projects[i].screens, screenId, e),
                         updatedAt := if stamp.Some? then stamp.value else projects[i].updatedAt)
          else projects[i])
  }

  /** createScreen's map: the new screen is appended to every project with the id. */
  function AddScreen(projects: seq<Project>, projectId: string, screen: Screen, now: int): seq<Project> {
    seq(|projects|, i requires 0 <= i < |projects| =>
          if projects[i].id == projectId then projects[i].(screens := projects[i].screens + [screen], updatedAt := now)
          else projects[i])
  }

  /** deleteScreen's map: the screens with the id leave every project with the id. */
  function DropScreen(projects: seq<Project>, projectId: string, screenId: string, now: int): seq<Project> {
    seq(|projects|, i requires 0 <= i < |projects| =>
          if projects[i].id == projectId then
            projects[i].(screens := RemoveAll(projects[i].screens, ScreenKey, screenId), updatedAt := now)
          else projects[i])
  }

  /** An edit reaches exactly the screens with the screen id inside the
      projects with the project id; every other screen and project, and every
      id, name and creation date, stays as it was. */
  lemma EditProjectsSpec(projects: seq<Project>, projectId: Option<string>, screenId: Option<string>,
                         e: ScreenEdit, stamp: Option<int>)
    ensures var r := EditProjects(projects, projectId, screenId, e, stamp);
            && |r| == |projects|
            && forall i :: 0 <= i < |r| ==>
                 && r[i].id == projects[i].id && r[i].name == projects[i].name
                 && r[i].createdAt == projects[i].createdAt
                 && |r[i].screens| == |projects[i].screens|
                 && (!IdIs(projects[i].id, projectId) ==> r[i] == projects[i])
                 && forall j :: 0 <= j < |r[i].screens| ==>
                      r[i].screens[j] ==
                        if IdIs(projects[i].id, projectId) && IdIs(projects[i].screens[j].id, screenId)
                        then EditScreen(projects[i].screens[j], e)
                        else projects[i].screens[j]
  {
  }

  /** updateScreenContent's edit sets the components of exactly the target
      screens and leaves every other field of every screen alone. */
  lemma SetComponentsOnlyTarget(projects: seq<Project>, projectId: string, screenId: string,
                                components: seq<Node>, now: int)
    ensures var r := EditProjects(projects, Some(projectId), Some(screenId), SetComponents(Some(components)), Some(now));
            forall i, j :: 0 <= i < |r| && 0 <= j < |r[i].screens| ==>
              var before := projects[i].screens[j];
              var after := r[i].screens[j];
              && after.id == before.id && after.name == before.name
              && after.chatHistory == before.chatHistory && after.dataModel == before.dataModel
              && after.components == if projects[i].id == projectId && before.id == screenId
                                      then Some(components) else before.components
  {
  }

  /** A new screen lands at the end of the matching projects only. */
  lemma AddScreenSpec(projects: seq<Project>, projectId: string, screen: Screen, now: int)
    ensures var r := AddScreen(projects, projectId, screen, now);
            && |r| == |projects|
            && forall i :: 0 <= i < |r| ==>
                 && r[i].id == projects[i].id
                 && (projects[i].id == projectId ==>
                       r[i].screens == projects[i].screens + [screen] && r[i].updatedAt == now)
                 && (projects[i].id != projectId ==> r[i] == projects[i])
  {
  }

  /** Deleting a screen removes every screen with its id from the matching
      projects, keeps their other screens in order and stamps them; their id,
      name and creation date and every other project stay as they were. */
  lemma DropScreenSpec(projects: seq<Project>, projectId: string, screenId: string, now: int)
    ensures var r := DropScreen(projects, projectId, screenId, now);
            && |r| == |projects|
            && forall i :: 0 <= i < |r| ==>
                 && r[i].id == projects[i].id && r[i].name == projects[i].name
                 && r[i].createdAt == projects[i].createdAt
                 && (projects[i].id != projectId ==> r[i] == projects[i])
                 && (projects[i].id == projectId ==>
                       && r[i].updatedAt == now
                       && r[i].screens == RemoveAll(projects[i].screens, ScreenKey, screenId)
                       && forall s :: s in r[i].screens <==> s in projects[i].screens && s.id != screenId)
  {
    var r := DropScreen(projects, projectId, screenId, now);
    forall i | 0 <= i < |r| && projects[i].id == projectId
      ensures forall s :: s in r[i].screens <==> s in projects[i].screens && s.id != screenId
    {
      RemoveAllSpec(projects[i].screens, ScreenKey, screenId);
    }
  }

  /** The current component list after updateScreenContent: the new
      components when the screen found after the update has the id of the
      previous current screen, where two absent screens count as equal. */
  function A2UIAfterContent(found: Option<Screen>, current: Option<Screen>, components: seq<Node>,
                            previous: Option<seq<Node>>): Option<seq<Node>> {
    if ScreenId(found) == ScreenId(current) then Some(components) else previous
  }

  /** The cases of that rule, including the one where neither screen exists:
      the components then replace the current list although no screen holds
      them. */
  lemma A2UIAfterContentCases(found: Option<Screen>, current: Option<Screen>, components: seq<Node>,
                              previous: Option<seq<Node>>)
    ensures found.None? && current.None? ==> A2UIAfterContent(found, current, components, previous) == Some(components)
    ensures found.None? && current.Some? ==> A2UIAfterContent(found, current, components, previous) == previous
    ensures found.Some? && current.None? ==> A2UIAfterContent(found, current, components, previous) == previous
    ensures found.Some? && current.Some? ==>
              A2UIAfterContent(found, current, components, previous) ==
              if found.value.id == current.value.id then Some(components) else previous
  {
  }

  // ---------------------------------------------------------------------------
  // The store
  // ---------------------------------------------------------------------------

  class AppStore {
    var projects: seq<Project>
    var currentProject: Option<Project>
    var currentScreen: Option<Screen>
    var chatHistory: seq<ChatMessage>
    var isLoading: bool
    var currentA2UI: Option<seq<Node>>
    var dataModel: Json

    /** The initial state (lines 57-63). */
    constructor()
      ensures projects == [] && currentProject == None && currentScreen == None
      ensures chatHistory == [] && !isLoading && currentA2UI == None && dataModel == EmptyObject
    {
      projects := [];
      currentProject := None;
      currentScreen := None;
      chatHistory := [];
      isLoading := false;
      currentA2UI := None;
      dataModel := EmptyObject;
    }

    /** createProject (lines 69-94); `projectId`, `screenId` and `now` stand for
        the two `generateId()` calls and `new Date()`. */
    method CreateProject(name: string, projectId: string, screenId: string, now: int)
      modifies this
      ensures var screen := Screen(screenId, "Screen 1", None, EmptyObject, []);
              var project := Project(projectId, name, [screen], now, now);
              && projects == old(projects) + [project]
              && currentProject == Some(project) && currentScreen == Some(screen)
              && chatHistory == [] && currentA2UI == None && dataModel == EmptyObject
      ensures isLoading == old(isLoading)
    {
      var screen := Screen(screenId, "Screen 1", None, EmptyObject, []);
      var project := Project(projectId, name, [screen], now, now);
      projects := projects + [project];
      currentProject := Some(project);
      currentScreen := Some(project.screens[0]);
      chatHistory := [];
      currentA2UI := None;
      dataModel := EmptyObject;
    }

    /** deleteProject (lines 96-109): the selection and the session are cleared
        only when the current project had the id; the data model is kept. */
    method DeleteProject(projectId: string)
      modifies this
      ensures projects == RemoveAll(old(projects), ProjectKey, projectId)
      ensures IdIs(projectId, ProjectId(old(currentProject))) ==>
                currentProject == None && currentScreen == None && chatHistory == [] && currentA2UI == None
      ensures !IdIs(projectId, ProjectId(old(currentProject))) ==>
                currentProject == old(currentProject) && currentScreen == old(currentScreen)
                && chatHistory == old(chatHistory) && currentA2UI == old(currentA2UI)
      ensures dataModel == old(dataModel) && isLoading == old(isLoading)
    {
      var deleted := IdIs(projectId, ProjectId(currentProject));
      projects := RemoveAll(projects, ProjectKey, projectId);
      if deleted {
        currentProject := None;
        currentScreen := None;
        chatHistory := [];
        currentA2UI := None;
      }
    }

    /** selectProject (lines 111-123): nothing changes for an unknown id;
        otherwise the first project with the id and its first screen, if any,
        become current. */
    method SelectProject(projectId: string)
      modifies this
      ensures var found := FindFirst(old(projects), ProjectKey, projectId);
              found.None? ==>
                currentProject == old(currentProject) && currentScreen == old(currentScreen)
                && chatHistory == old(chatHistory) && currentA2UI == old(currentA2UI) && dataModel == old(dataModel)
      ensures var found := FindFirst(old(projects), ProjectKey, projectId);
              found.Some? ==>
                var screens := found.value.screens;
                && currentProject == found
                && currentScreen == (if screens != [] then Some(screens[0]) else None)
                && chatHistory == (if screens != [] then screens[0].chatHistory else [])
                && currentA2UI == (if screens != [] then screens[0].components else None)
                && dataModel == (if screens != [] && Truthy(screens[0].dataModel) then screens[0].dataModel else EmptyObject)
      ensures projects == old(projects) && isLoading == old(isLoading)
    {
      var project := FindFirst(projects, ProjectKey, projectId);
      if project.Some? {
        var screen := if project.value.screens != [] then Some(project.value.screens[0]) else None;
        currentProject := project;
        currentScreen := screen;
        chatHistory := if screen.Some? then screen.value.chatHistory else [];
        currentA2UI := if screen.Some? then screen.value.components else None;
        dataModel := if screen.Some? && Truthy(screen.value.dataModel) then screen.value.dataModel else EmptyObject;
      }
    }

    /** createScreen (lines 129-161): the new screen becomes current with an
        empty session even when no project has the id. */
    method CreateScreen(projectId: string, name: string, screenId: string, now: int)
      modifies this
      ensures var screen := Screen(screenId, name, None, EmptyObject, []);
              var found := FindFirst(projects, ProjectKey, projectId);
              && projects == AddScreen(old(projects), projectId, screen, now)
              && currentProject == (if found.Some? then found else old(currentProject))
              && currentScreen == Some(screen)
              && chatHistory == [] && currentA2UI == None && dataModel == EmptyObject
      ensures isLoading == old(isLoading)
    {
      var screen := Screen(screenId, name, None, EmptyObject, []);
      var updated := AddScreen(projects, projectId, screen, now);
      var found := FindFirst(updated, ProjectKey, projectId);
      projects := updated;
      currentProject := if found.Some? then found else currentProject;
      currentScreen := Some(screen);
      chatHistory := [];
      currentA2UI := None;
      dataModel := EmptyObject;
    }

    /** deleteScreen (lines 163-189): when the current screen has the id (the
        project is not compared), the first remaining screen of the project
        becomes current and the session is cleared. */
    method DeleteScreen(projectId: string, screenId: string, now: int)
      modifies this
      ensures var found := FindFirst(projects, ProjectKey, projectId);
              && projects == DropScreen(old(projects), projectId, screenId, now)
              && currentProject == (if found.Some? then found else old(currentProject))
              && (IdIs(screenId, ScreenId(old(currentScreen))) ==>
                    && currentScreen == (if found.Some? && found.value.screens != [] then Some(found.value.screens[0]) else None)
                    && chatHistory == [] && currentA2UI == None)
              && (!IdIs(screenId, ScreenId(old(currentScreen))) ==>
                    currentScreen == old(currentScreen) && chatHistory == old(chatHistory) && currentA2UI == old(currentA2UI))
      ensures dataModel == old(dataModel) && isLoading == old(isLoading)
    {
      var updated := DropScreen(projects, projectId, screenId, now);
      var found := FindFirst(updated, ProjectKey, projectId);
      var deleted := IdIs(screenId, ScreenId(currentScreen));
      projects := updated;
      currentProject := if found.Some? then found else currentProject;
      if deleted {
        currentScreen := if found.Some? && found.value.screens != [] then Some(found.value.screens[0]) else None;
        chatHistory := [];
        currentA2UI := None;
      }
    }

    /** selectScreen (lines 191-204): nothing changes unless both the project
        and the screen are found. */
    method SelectScreen(projectId: string, screenId: string)
      modifies this
      ensures var project := FindFirst(old(projects), ProjectKey, projectId);
              var screen := if project.Some? then FindFirst(project.value.screens, ScreenKey, screenId) else None;
              && (project.Some? && screen.Some? ==>
                    && currentProject == project && currentScreen == screen
                    && chatHistory == screen.value.chatHistory && currentA2UI == screen.value.components
                    && dataModel == screen.value.dataModel)
              && (!(project.Some? && screen.Some?) ==>
                    currentProject == old(currentProject) && currentScreen == old(currentScreen)
                    && chatHistory == old(chatHistory) && currentA2UI == old(currentA2UI) && dataModel == old(dataModel))
      ensures projects == old(projects) && isLoading == old(isLoading)
    {
      var project := FindFirst(projects, ProjectKey, projectId);
      var screen := if project.Some? then FindFirst(project.value.screens, ScreenKey, screenId) else None;
      if project.Some? && screen.Some? {
        currentProject := project;
        currentScreen := screen;
        chatHistory := screen.value.chatHistory;
        currentA2UI := screen.value.components;
        dataModel := screen.value.dataModel;
      }
    }

    /** updateScreenContent (lines 206-234). */
    method UpdateScreenContent(projectId: string, screenId: string, components: seq<Node>, now: int)
      modifies this
      ensures var project := FindFirst(projects, ProjectKey, projectId);
              var screen := if project.Some? then FindFirst(project.value.screens, ScreenKey, screenId) else None;
              && projects == EditProjects(old(projects), Some(projectId), Some(screenId), SetComponents(Some(components)), Some(now))
              && currentProject == (if project.Some? then project else old(currentProject))
              && currentScreen == (if screen.Some? then screen else old(currentScreen))
              && currentA2UI == A2UIAfterContent(screen, old(currentScreen), components, old(currentA2UI))
      ensures chatHistory == old(chatHistory) && dataModel == old(dataModel) && isLoading == old(isLoading)
    {
      var updated := EditProjects(projects, Some(projectId), Some(screenId), SetComponents(Some(components)), Some(now));
      var project := FindFirst(updated, ProjectKey, projectId);
      var screen := if project.Some? then FindFirst(project.value.screens, ScreenKey, screenId) else None;
      projects := updated;
      currentA2UI := A2UIAfterContent(screen, currentScreen, components, currentA2UI);
      currentProject := if project.Some? then project else currentProject;
      currentScreen := if screen.Some? then screen else currentScreen;
    }

    /** addChatMessage (lines 240-271): the message is appended to the session,
        the whole new history is written into the current screen, and the
        message's components replace the current list only when it has some. */
    method AddChatMessage(message: ChatMessage, now: int)
      modifies this
      ensures chatHistory == old(chatHistory) + [message]
      ensures projects == EditProjects(old(projects), ProjectId(currentProject), ScreenId(currentScreen),
                                       RecordMessage(chatHistory, message.components), Some(now))
      ensures currentA2UI == if message.components.Some? then message.components else old(currentA2UI)
      ensures currentProject == old(currentProject) && currentScreen == old(currentScreen)
      ensures dataModel == old(dataModel) && isLoading == old(isLoading)
    {
      var history := chatHistory + [message];
      projects := EditProjects(projects, ProjectId(currentProject), ScreenId(currentScreen),
                               RecordMessage(history, message.components), Some(now));
      chatHistory := history;
      currentA2UI := if message.components.Some? then message.components else currentA2UI;
    }

    /** clearChatHistory (lines 273-291). */
    method ClearChatHistory()
      modifies this
      ensures chatHistory == []
      ensures projects == EditProjects(old(projects), ProjectId(currentProject), ScreenId(currentScreen), ClearChat, None)
      ensures currentProject == old(currentProject) && currentScreen == old(currentScreen)
      ensures currentA2UI == old(currentA2UI) && dataModel == old(dataModel) && isLoading == old(isLoading)
    {
      chatHistory := [];
      projects := EditProjects(projects, ProjectId(currentProject), ScreenId(currentScreen), ClearChat, None);
    }

    /** setLoading (line 297). */
    method SetLoading(loading: bool)
      modifies this
      ensures isLoading == loading
      ensures projects == old(projects) && currentProject == old(currentProject) && currentScreen == old(currentScreen)
      ensures chatHistory == old(chatHistory) && currentA2UI == old(currentA2UI) && dataModel == old(dataModel)
    {
      isLoading := loading;
    }

    /** setComponents (lines 299-322). */
    method SetComponentList(components: Option<seq<Node>>)
      modifies this
      ensures currentA2UI == components
      ensures projects == EditProjects(old(projects), ProjectId(currentProject), ScreenId(currentScreen), SetComponents(components), None)
      ensures currentProject == old(currentProject) && currentScreen == old(currentScreen)
      ensures chatHistory == old(chatHistory) && dataModel == old(dataModel) && isLoading == old(isLoading)
    {
      projects := EditProjects(projects, ProjectId(currentProject), ScreenId(currentScreen), SetComponents(components), None);
      currentA2UI := components;
    }

    /** updateDataModel (lines 324-346). */
    method UpdateDataModel(data: Json)
      modifies this
      ensures dataModel == data
      ensures projects == EditProjects(old(projects), ProjectId(currentProject), ScreenId(currentScreen), SetData(data), None)
      ensures currentProject == old(currentProject) && currentScreen == old(currentScreen)
      ensures chatHistory == old(chatHistory) && currentA2UI == old(currentA2UI) && isLoading == old(isLoading)
    {
      projects := EditProjects(projects, ProjectId(currentProject), ScreenId(currentScreen), SetData(data), None);
      dataModel := data;
    }
  }

  // ---------------------------------------------------------------------------
  // Properties across actions
  // ---------------------------------------------------------------------------

  /** After selectScreen finds both, the current screen belongs to the current
      project and has the requested id. */
  lemma SelectedScreenBelongs(projects: seq<Project>, projectId: string, screenId: string)
    ensures var project := FindFirst(projects, ProjectKey, projectId);
            var screen := if project.Some? then FindFirst(project.value.screens, ScreenKey, screenId) else None;
            project.Some? && screen.Some? ==>
              && project.value in projects && project.value.id == projectId
              && screen.value in project.value.screens && screen.value.id == screenId
  {
    FindFirstSpec(projects, ProjectKey, projectId);
    var project := FindFirst(projects, ProjectKey, projectId);
    if project.Some? {
      FindFirstSpec(project.value.screens, ScreenKey, screenId);
    }
  }

  /** deleteProject leaves no project with the id and keeps all others. */
  lemma DeletedProjectIsGone(projects: seq<Project>, projectId: string)
    ensures forall p :: p in RemoveAll(projects, ProjectKey, projectId) <==> p in projects && p.id != projectId
    ensures FindFirst(RemoveAll(projects, ProjectKey, projectId), ProjectKey, projectId).None?
  {
    RemoveAllSpec(projects, ProjectKey, projectId);
    var r := RemoveAll(projects, ProjectKey, projectId);
    FindFirstSpec(r, ProjectKey, projectId);
    assert forall i :: 0 <= i < |r| ==> r[i] in r;
  }

  /** A message without components changes no screen's components, and the
      current screen of the current project ends with exactly the session
      history. */
  lemma RecordMessageSpec(projects: seq<Project>, current: Option<Project>, screen: Option<Screen>,
                          history: seq<ChatMessage>, carried: Option<seq<Node>>, now: int)
    ensures var r := EditProjects(projects, ProjectId(current), ScreenId(screen), RecordMessage(history, carried), Some(now));
            forall i, j :: 0 <= i < |r| && 0 <= j < |r[i].screens| ==>
              && (carried.None? ==> r[i].screens[j].components == projects[i].screens[j].components)
              && (IdIs(projects[i].id, ProjectId(current)) && IdIs(projects[i].screens[j].id, ScreenId(screen)) ==>
                    r[i].screens[j].chatHistory == history)
  {
  }
}
