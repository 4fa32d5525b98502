/**
 * The application store of the production logger: the entities it holds, the
 * reducer that every change goes through, the clock tick that keeps the
 * displayed timecode running, and the provider object that owns the state, the
 * persisted dark-mode flag and the calls it passes on to the remote store.
 */
module AppContext {
  import opened Wrappers
  import opened Strings
  import opened Timecode

  // ---------------------------------------------------------------------------
  // Entities
  // ---------------------------------------------------------------------------

  /** A participant, location, action category or tag: all four share this shape. */
  datatype RefEntity = RefEntity(id: string, name: string, color: Option<string>,
                                 description: Option<string>, createdAt: int)

  type Participant = RefEntity
  type Location = RefEntity
  type ActionCategory = RefEntity
  type Tag = RefEntity

  /** One logged event; `timestamp` is the creation instant in milliseconds. */
  datatype LogEntry = LogEntry(id: string, timestamp: int, timecode: string,
                               participants: seq<string>, location: string,
                               actionCategory: string, tags: seq<string>,
                               notes: string, createdBy: string)

  /** The signed-in user; only the role is consulted by the core. */
  datatype User = User(uid: string, role: string)

  datatype AppState = AppState(
    currentUser: Option<User>,
    participants: seq<Participant>,
    locations: seq<Location>,
    actionCategories: seq<ActionCategory>,
    tags: seq<Tag>,
    logEntries: seq<LogEntry>,
    darkMode: bool,
    isRecording: bool,
    currentTimecode: string,
    isManualTimecode: bool,
    manualTimecodeStart: Option<int>,
    manualTimecodeBase: Option<string>,
    selectedParticipants: seq<string>,
    selectedLocation: string,
    selectedAction: string,
    selectedTags: seq<string>)

  /** The state the provider starts from; `darkMode` is what storage held. */
  function InitialState(darkMode: bool): (s: AppState)
    ensures s.darkMode == darkMode && s.currentTimecode == "00:00:00:00"
    ensures s.currentUser == None && s.logEntries == [] && !s.isRecording && !s.isManualTimecode
    ensures s.manualTimecodeStart == None && s.manualTimecodeBase == None
    ensures s.participants == [] && s.locations == [] && s.actionCategories == [] && s.tags == []
    ensures s.selectedParticipants == [] && s.selectedLocation == "" && s.selectedAction == ""
            && s.selectedTags == []
  {
    AppState(None, [], [], [], [], [], darkMode, false, "00:00:00:00", false, None, None,
             [], "", "", [])
  }

  // ---------------------------------------------------------------------------
  // Actions and the reducer
  // ---------------------------------------------------------------------------

  datatype Action =
    | SetUser(user: Option<User>)
    | SetParticipants(participantList: seq<Participant>)
    | SetLocations(locationList: seq<Location>)
    | SetActionCategories(categoryList: seq<ActionCategory>)
    | SetTags(tagList: seq<Tag>)
    | SetLogEntries(entryList: seq<LogEntry>)
    | ToggleDarkMode
    | SetRecording(recording: bool)
    | SetTimecode(timecode: string)
    | SetManualTimecode(isManual: bool, startTime: Option<int>, baseTimecode: Option<string>)
    | SetSelectedParticipants(participantIds: seq<string>)
    | SetSelectedLocation(locationId: string)
    | SetSelectedAction(actionId: string)
    | SetSelectedTags(tagIds: seq<string>)
    | Unknown(kind: string)

  /** The slices of `AppState`, for stating which ones an action may write. */
  datatype Field =
    | CurrentUser | Participants | Locations | ActionCategories | Tags | LogEntries
    | DarkMode | IsRecording | CurrentTimecode | IsManualTimecode | ManualTimecodeStart
    | ManualTimecodeBase | SelectedParticipants | SelectedLocation | SelectedAction | SelectedTags

  /** The slices each action is allowed to replace. */
  function Writes(a: Action): (fs: set<Field>)
    ensures fs == {} <==> a.Unknown?
    ensures a.SetManualTimecode? ==> |fs| == 3
    ensures !a.SetManualTimecode? && !a.Unknown? ==> |fs| == 1
  {
    match a
    case SetUser(_) => {CurrentUser}
    case SetParticipants(_) => {Participants}
    case SetLocations(_) => {Locations}
    case SetActionCategories(_) => {ActionCategories}
    case SetTags(_) => {Tags}
    case SetLogEntries(_) => {LogEntries}
    case ToggleDarkMode => {DarkMode}
    case SetRecording(_) => {IsRecording}
    case SetTimecode(_) => {CurrentTimecode}
    case SetManualTimecode(_, _, _) => {IsManualTimecode, ManualTimecodeStart, ManualTimecodeBase}
    case SetSelectedParticipants(_) => {SelectedParticipants}
    case SetSelectedLocation(_) => {SelectedLocation}
    case SetSelectedAction(_) => {SelectedAction}
    case SetSelectedTags(_) => {SelectedTags}
    case Unknown(_) => {}
  }

  /** `s` and `t` hold the same value in every slice outside `fs`. */
  function AgreeExcept(s: AppState, t: AppState, fs: set<Field>): (b: bool)
    ensures s == t ==> b
    ensures fs == {} ==> (b <==> s == t)
  {
    (CurrentUser !in fs ==> s.currentUser == t.currentUser)
    && (Participants !in fs ==> s.participants == t.participants)
    && (Locations !in fs ==> s.locations == t.locations)
    && (ActionCategories !in fs ==> s.actionCategories == t.actionCategories)
    && (Tags !in fs ==> s.tags == t.tags)
    && (LogEntries !in fs ==> s.logEntries == t.logEntries)
    && (DarkMode !in fs ==> s.darkMode == t.darkMode)
    && (IsRecording !in fs ==> s.isRecording == t.isRecording)
    && (CurrentTimecode !in fs ==> s.currentTimecode == t.currentTimecode)
    && (IsManualTimecode !in fs ==> s.isManualTimecode == t.isManualTimecode)
    && (ManualTimecodeStart !in fs ==> s.manualTimecodeStart == t.manualTimecodeStart)
    && (ManualTimecodeBase !in fs ==> s.manualTimecodeBase == t.manualTimecodeBase)
    && (SelectedParticipants !in fs ==> s.selectedParticipants == t.selectedParticipants)
    && (SelectedLocation !in fs ==> s.selectedLocation == t.selectedLocation)
    && (SelectedAction !in fs ==> s.selectedAction == t.selectedAction)
    && (SelectedTags !in fs ==> s.selectedTags == t.selectedTags)
  }

  /** Agreeing on every slice is equality. */
  lemma AgreeEverywhere(s: AppState, t: AppState)
    requires AgreeExcept(s, t, {})
    ensures s == t
  {
  }

  /** JavaScript's `x || null` on an optional number: 0 is falsy. */
  function NumberOrNull(x: Option<int>): (r: Option<int>)
    ensures r.Some? <==> x.Some? && x.value != 0
    ensures r.Some? ==> r == x
  {
    if x.Some? && x.value != 0 then x else None
  }

  /** JavaScript's `x || null` on an optional string: "" is falsy. */
  function StringOrNull(x: Option<string>): (r: Option<string>)
    ensures r.Some? <==> x.Some? && x.value != ""
    ensures r.Some? ==> r == x
  {
    if x.Some? && x.value != "" then x else None
  }

  /**
   * `appReducer`: every action replaces its own slices in full (no merge) and
   * leaves all the others as they were; an action it does not know changes nothing.
   */
  function Reduce(s: AppState, a: Action): (r: AppState)
    ensures AgreeExcept(s, r, Writes(a))
    ensures a.SetUser? ==> r.currentUser == a.user
    ensures a.SetParticipants? ==> r.participants == a.participantList
    ensures a.SetLocations? ==> r.locations == a.locationList
    ensures a.SetActionCategories? ==> r.actionCategories == a.categoryList
    ensures a.SetTags? ==> r.tags == a.tagList
    ensures a.SetLogEntries? ==> r.logEntries == a.entryList
    ensures a.ToggleDarkMode? ==> r.darkMode == !s.darkMode
    ensures a.SetRecording? ==> r.isRecording == a.recording
    ensures a.SetTimecode? ==> r.currentTimecode == a.timecode
    ensures a.SetManualTimecode? ==>
              r.isManualTimecode == a.isManual
              && (r.manualTimecodeStart.Some? <==> a.startTime.Some? && a.startTime.value != 0)
              && (r.manualTimecodeStart.Some? ==> r.manualTimecodeStart == a.startTime)
              && (r.manualTimecodeBase.Some? <==> a.baseTimecode.Some? && a.baseTimecode.value != "")
              && (r.manualTimecodeBase.Some? ==> r.manualTimecodeBase == a.baseTimecode)
    ensures a.SetSelectedParticipants? ==> r.selectedParticipants == a.participantIds
    ensures a.SetSelectedLocation? ==> r.selectedLocation == a.locationId
    ensures a.SetSelectedAction? ==> r.selectedAction == a.actionId
    ensures a.SetSelectedTags? ==> r.selectedTags == a.tagIds
    ensures a.Unknown? ==> r == s
  {
    match a
    case SetUser(u) => s.(currentUser := u)
    case SetParticipants(ps) => s.(participants := ps)
    case SetLocations(ls) => s.(locations := ls)
    case SetActionCategories(cs) => s.(actionCategories := cs)
    case SetTags(ts) => s.(tags := ts)
    case SetLogEntries(es) => s.(logEntries := es)
    case ToggleDarkMode => s.(darkMode := !s.darkMode)
    case SetRecording(b) => s.(isRecording := b)
    case SetTimecode(t) => s.(currentTimecode := t)
    case SetManualTimecode(m, st, base) =>
      s.(isManualTimecode := m, manualTimecodeStart := NumberOrNull(st),
         manualTimecodeBase := StringOrNull(base))
    case SetSelectedParticipants(ids) => s.(selectedParticipants := ids)
    case SetSelectedLocation(id) => s.(selectedLocation := id)
    case SetSelectedAction(id) => s.(selectedAction := id)
    case SetSelectedTags(ids) => s.(selectedTags := ids)
    case Unknown(_) => s
  }

  /** Setting the timecode is a change of that one slice. */
  lemma ReduceSetTimecode(s: AppState, t: string)
    ensures Reduce(s, SetTimecode(t)) == s.(currentTimecode := t)
  {
  }

  /** Toggling the theme twice gives back the state it started from. */
  lemma ToggleTwice(s: AppState)
    ensures Reduce(Reduce(s, ToggleDarkMode), ToggleDarkMode) == s
  {
    var t := Reduce(Reduce(s, ToggleDarkMode), ToggleDarkMode);
    assert AgreeExcept(s, t, {});
    AgreeEverywhere(s, t);
  }

  /** Two actions of the same kind write the same slices. */
  predicate SameKind(a: Action, b: Action)
  {
    match a
    case SetUser(_) => b.SetUser?
    case SetParticipants(_) => b.SetParticipants?
    case SetLocations(_) => b.SetLocations?
    case SetActionCategories(_) => b.SetActionCategories?
    case SetTags(_) => b.SetTags?
    case SetLogEntries(_) => b.SetLogEntries?
    case ToggleDarkMode => b.ToggleDarkMode?
    case SetRecording(_) => b.SetRecording?
    case SetTimecode(_) => b.SetTimecode?
    case SetManualTimecode(_, _, _) => b.SetManualTimecode?
    case SetSelectedParticipants(_) => b.SetSelectedParticipants?
    case SetSelectedLocation(_) => b.SetSelectedLocation?
    case SetSelectedAction(_) => b.SetSelectedAction?
    case SetSelectedTags(_) => b.SetSelectedTags?
    case Unknown(_) => b.Unknown?
  }

  /**
   * Last snapshot wins: a replacing action followed by another of the same kind
   * is the second one alone, whatever the first carried.
   */
  lemma LastWriteWins(s: AppState, a: Action, b: Action)
    requires SameKind(a, b) && !a.ToggleDarkMode?
    ensures Reduce(Reduce(s, a), b) == Reduce(s, b)
  {
  }

  // ---------------------------------------------------------------------------
  // The clock tick
  // ---------------------------------------------------------------------------

  /** Both manual anchors are truthy: a non-zero start instant and a non-empty base. */
  predicate ManualAnchored(s: AppState)
  {
    s.manualTimecodeStart.Some? && s.manualTimecodeStart.value != 0
    && s.manualTimecodeBase.Some? && s.manualTimecodeBase.value != ""
  }

  /** The base timecode can be read, whenever the tick is going to read it. */
  predicate TickReadable(s: AppState)
  {
    s.isManualTimecode && ManualAnchored(s) ==> WellFormed(s.manualTimecodeBase.value)
  }

  /**
   * `updateTimecode`: the timecode one tick dispatches at instant `now` (ms),
   * with `zoneOffset` the local time zone's offset in ms, or `None` when it
   * dispatches nothing.
   */
  function TickTimecode(s: AppState, now: int, zoneOffset: int): (r: Option<string>)
    requires TickReadable(s)
    ensures s.isManualTimecode && ManualAnchored(s) ==>
              r == Some(ManualTimecode(s.manualTimecodeBase.value, s.manualTimecodeStart.value, now))
    ensures !s.isManualTimecode ==> r == Some(WallClockTimecode(now, zoneOffset))
    ensures s.isManualTimecode && !ManualAnchored(s) ==> r == None
  {
    if s.isManualTimecode && ManualAnchored(s) then
      Some(ManualTimecode(s.manualTimecodeBase.value, s.manualTimecodeStart.value, now))
    else if !s.isManualTimecode then
      Some(WallClockTimecode(now, zoneOffset))
    else
      None
  }

  /** In automatic mode every tick dispatches an in-range time of day. */
  lemma AutoTickInRange(s: AppState, now: int, zoneOffset: int)
    requires !s.isManualTimecode
    ensures TickTimecode(s, now, zoneOffset).Some?
    ensures WellFormed(TickTimecode(s, now, zoneOffset).value)
    ensures Canonical(ParseFields(TickTimecode(s, now, zoneOffset).value))
    ensures ParseFields(TickTimecode(s, now, zoneOffset).value).hours < 24
    ensures ParseFields(TickTimecode(s, now, zoneOffset).value) == WallClockFields(now, zoneOffset)
  {
    WallClockTimecodeReadsBack(now, zoneOffset);
  }

  /**
   * In anchored manual mode the dispatched timecode is the base advanced by the
   * whole frames (at 30 per second) elapsed since the anchor.
   */
  lemma ManualTickFrames(s: AppState, now: int, zoneOffset: int)
    requires TickReadable(s) && s.isManualTimecode && ManualAnchored(s)
    requires s.manualTimecodeStart.value <= now
    ensures TickTimecode(s, now, zoneOffset) ==
              Some(Format(FramesToFields(ManualFrameCount(s.manualTimecodeBase.value,
                                                          s.manualTimecodeStart.value, now))))
  {
  }

  /**
   * Entering manual mode with a start instant of 0 stores no anchor, so the
   * following ticks dispatch nothing and the timecode stands still.
   */
  lemma ZeroStartFreezesClock(s: AppState, base: Option<string>, now: int, zoneOffset: int)
    ensures TickReadable(Reduce(s, SetManualTimecode(true, Some(0), base)))
    ensures TickTimecode(Reduce(s, SetManualTimecode(true, Some(0), base)), now, zoneOffset) == None
  {
  }

  // ---------------------------------------------------------------------------
  // The provider: state, persisted flag and calls to the remote store
  // ---------------------------------------------------------------------------

  /** The fields a new entry is submitted with; the store assigns the rest. */
  datatype NewEntry = NewEntry(timestamp: int, timecode: string, participants: seq<string>,
                               location: string, actionCategory: string, tags: seq<string>,
                               notes: string)

  /** A partial update of a log entry: only the fields that are present are written. */
  datatype Patch = Patch(timecode: Option<string>, participants: Option<seq<string>>,
                         location: Option<string>, actionCategory: Option<string>,
                         tags: Option<seq<string>>, notes: Option<string>)

  /** The update that writes the notes and nothing else. */
  function NotesPatch(notes: string): (p: Patch)
    ensures p.notes == Some(notes)
    ensures p.timecode == None && p.participants == None && p.location == None
    ensures p.actionCategory == None && p.tags == None
  {
    Patch(None, None, None, None, None, Some(notes))
  }

  /** A call handed on to the remote store. */
  datatype Request =
    | AddRequest(entry: NewEntry)
    | UpdateRequest(entryId: string, patch: Patch)
    | DeleteRequest(deleteId: string)
    | DeleteAllRequest

  /** `Boolean.prototype.toString`. */
  function BoolString(b: bool): (r: string)
    ensures r == "true" <==> b
  {
    if b then "true" else "false"
  }

  /** Storage holds `"darkMode"` set to exactly `"true"`. */
  predicate StoredDark(storage: map<string, string>)
  {
    "darkMode" in storage && storage["darkMode"] == "true"
  }

  /**
   * The provider object. `storage` stands for the browser's local storage and
   * `requests` is the trace of calls passed on to the remote store, oldest first.
   */
  class AppStore {
    var state: AppState
    var storage: map<string, string>
    var requests: seq<Request>

    /** The theme in the state is the one storage would give back. */
    predicate Synced()
      reads this
    {
      state.darkMode == StoredDark(storage)
    }

    constructor(initialStorage: map<string, string>)
      ensures state == InitialState(StoredDark(initialStorage))
      ensures storage == initialStorage && requests == []
      ensures Synced()
    {
      state := InitialState(StoredDark(initialStorage));
      storage := initialStorage;
      requests := [];
    }

    /** `dispatch`: run the reducer; toggling the theme also persists the new flag. */
    method Dispatch(a: Action)
      modifies this
      ensures state == Reduce(old(state), a)
      ensures a.ToggleDarkMode? ==> storage == old(storage)["darkMode" := BoolString(state.darkMode)]
      ensures !a.ToggleDarkMode? ==> storage == old(storage)
      ensures requests == old(requests)
      ensures a.ToggleDarkMode? ==> Synced()
      ensures old(Synced()) ==> Synced()
    {
      state := Reduce(state, a);
      if a.ToggleDarkMode? {
        storage := storage["darkMode" := BoolString(state.darkMode)];
      }
    }

    /** One run of `updateTimecode` at instant `now`. */
    method Tick(now: int, zoneOffset: int)
      requires TickReadable(state)
      modifies this
      ensures TickTimecode(old(state), now, zoneOffset).Some? ==>
                state == old(state).(currentTimecode := TickTimecode(old(state), now, zoneOffset).value)
      ensures TickTimecode(old(state), now, zoneOffset).None? ==> state == old(state)
      ensures storage == old(storage) && requests == old(requests)
    {
      var t := TickTimecode(state, now, zoneOffset);
      if t.Some? {
        ReduceSetTimecode(state, t.value);
        Dispatch(SetTimecode(t.value));
      }
    }

    /** `addLogEntry`: hand the new entry to the store; the state waits for the next snapshot. */
    method AddLogEntry(entry: NewEntry)
      modifies this
      ensures requests == old(requests) + [AddRequest(entry)]
      ensures state == old(state) && storage == old(storage)
    {
      requests := requests + [AddRequest(entry)];
    }

    /** `updateLogEntry`: hand a partial update of one entry to the store. */
    method UpdateLogEntry(entryId: string, updates: Patch)
      modifies this
      ensures requests == old(requests) + [UpdateRequest(entryId, updates)]
      ensures state == old(state) && storage == old(storage)
    {
      requests := requests + [UpdateRequest(entryId, updates)];
    }

    /** `deleteLogEntry`: hand the removal of one entry to the store. */
    method DeleteLogEntry(entryId: string)
      modifies this
      ensures requests == old(requests) + [DeleteRequest(entryId)]
      ensures state == old(state) && storage == old(storage)
    {
      requests := requests + [DeleteRequest(entryId)];
    }

    /** `deleteAllLogEntries`: hand a batch removal to the store and return the count it reports. */
    method DeleteAllLogEntries(reported: nat) returns (count: nat)
      modifies this
      ensures count == reported
      ensures requests == old(requests) + [DeleteAllRequest]
      ensures state == old(state) && storage == old(storage)
    {
      requests := requests + [DeleteAllRequest];
      count := reported;
    }
  }
}
