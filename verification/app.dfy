/** The application shell (App.tsx): the lists on screen, the active
    conversation, the item dialog and the chat's scheduling dialog, and
    the handlers that write through the storage service and refresh the
    list they changed from the store. Each handler runs to completion
    before the next event; `hostOk` says whether opening the database
    would succeed if the service has to open it. */
module App {
  import opened Wrappers
  import opened Types
  import opened Seqs
  import opened Sorting
  import opened ObjectStore
  import opened Storage
  import Keys
  import Strings
  import ItemForm
  import Chat

  /** Before the initial load, after it, or after it was rejected. */
  datatype Phase = Mounted | Ready | LoadFailed

  /** The add/edit dialog: closed, or open on a new item or an edited one. */
  datatype Modal = Closed | Open(editItem: Option<ClothingItem>)

  datatype Session = Session(
    phase: Phase,
    items: seq<ClothingItem>,
    conversations: seq<Conversation>,
    scheduled: seq<ScheduledOutfit>,
    activeConversationId: Option<string>,
    modal: Modal,
    scheduling: Chat.Scheduling)

  datatype World = World(host: Host, session: Session)

  /** The page as first rendered: empty lists, nothing selected; the
      scheduling date defaults to today's date. */
  function InitialWorld(disk: Database, today: string): World
  {
    World(InitialHost(disk), Session(Mounted, [], [], [], None, Closed, Chat.Scheduling(None, today)))
  }

  /** Items newest first. */
  function ItemsView(db: Database): seq<ClothingItem>
  {
    SortDesc(GetAll(db.items), CreatedAt)
  }

  /** Conversations most recently updated first. */
  function ConversationsView(db: Database): seq<Conversation>
  {
    SortDesc(GetAll(db.conversations), LastUpdatedAt)
  }

  /** Schedules in store (key) order, unsorted by the page. */
  function ScheduleView(db: Database): seq<ScheduledOutfit>
  {
    GetAll(db.schedules)
  }

  /** A list on screen shows its store, or is still the empty list it
      started as when the initial load has not happened. */
  predicate Mirrors<T(==)>(shown: seq<T>, stored: seq<T>, phase: Phase)
  {
    shown == stored || (phase != Ready && shown == [])
  }

  predicate Inv(w: World)
  {
    && HostValid(w.host)
    && (w.session.phase == Ready ==> w.host.connected)
    && Mirrors(w.session.items, ItemsView(w.host.disk), w.session.phase)
    && Mirrors(w.session.conversations, ConversationsView(w.host.disk), w.session.phase)
    && Mirrors(w.session.scheduled, ScheduleView(w.host.disk), w.session.phase)
  }

  /** After the initial load every list shows its store. */
  lemma ReadyMeansSynced(w: World)
    requires Inv(w) && w.session.phase == Ready
    ensures w.session.items == ItemsView(w.host.disk)
    ensures w.session.conversations == ConversationsView(w.host.disk)
    ensures w.session.scheduled == ScheduleView(w.host.disk)
    ensures forall ok :: CanConnect(w.host, ok)
  {
  }

  lemma InitialInv(disk: Database, today: string)
    requires Valid(disk)
    ensures Inv(InitialWorld(disk, today))
  {
  }

  /** The three stores as read by the initial load, and the service afterwards. */
  datatype Snapshot = Snapshot(
    host: Host,
    items: seq<ClothingItem>,
    conversations: seq<Conversation>,
    schedules: seq<ScheduledOutfit>)

  /** The load's three reads in order. Once the first has opened the
      connection the other two reuse it, so either all succeed or the first
      one fails. */
  function ReadAll(h: Host, hostOk: bool): (r: Result<Snapshot, StorageError>)
    ensures r.Success? <==> CanConnect(h, hostOk)
    ensures HostValid(h) && r.Success? ==>
      && HostValid(r.value.host) && r.value.host.connected
      && SameRecords(r.value.host.disk, h.disk)
      && r.value.items == GetAll(h.disk.items)
      && r.value.conversations == GetAll(h.disk.conversations)
      && r.value.schedules == GetAll(h.disk.schedules)
  {
    match GetItems(h, hostOk)
    case Failure(e) => Failure(e)
    case Success(ri) =>
      match GetConversations(ri.host, hostOk)
      case Failure(e) => Failure(e)
      case Success(rc) =>
        match GetScheduledOutfits(rc.host, hostOk)
        case Failure(e) => Failure(e)
        case Success(rs) => Success(Snapshot(rs.host, ri.records, rc.records, rs.records))
  }

  /** The initial load (runs once): read all three stores, sort items and
      conversations newest first, and select the most recently updated
      conversation. The check for an existing selection reads the value
      captured at the first render, which is always null, so a non-empty
      store always decides the selection. A rejected read stops the load. */
  function LoadData(w: World, hostOk: bool): (r: World)
    ensures w.session.phase != Mounted ==> r == w
    ensures w.session.phase == Mounted && !CanConnect(w.host, hostOk) ==>
      r == w.(session := w.session.(phase := LoadFailed))
    ensures Inv(w) && w.session.phase == Mounted && CanConnect(w.host, hostOk) ==>
      && Inv(r) && r.session.phase == Ready
      && SameRecords(r.host.disk, w.host.disk)
      && r.session.items == ItemsView(r.host.disk)
      && r.session.conversations == ConversationsView(r.host.disk)
      && r.session.scheduled == ScheduleView(r.host.disk)
      && r.session.activeConversationId ==
           (if |r.session.conversations| > 0 then Some(r.session.conversations[0].id) else w.session.activeConversationId)
      && r.session.modal == w.session.modal && r.session.scheduling == w.session.scheduling
  {
    if w.session.phase != Mounted then w
    else match ReadAll(w.host, hostOk)
      case Failure(_) => w.(session := w.session.(phase := LoadFailed))
      case Success(snap) =>
        var convs := SortDesc(snap.conversations, LastUpdatedAt);
        assert Inv(w) ==>
          && SortDesc(snap.items, CreatedAt) == ItemsView(snap.host.disk)
          && convs == ConversationsView(snap.host.disk)
          && snap.schedules == ScheduleView(snap.host.disk);
        World(snap.host, w.session.(
          phase := Ready,
          items := SortDesc(snap.items, CreatedAt),
          conversations := convs,
          scheduled := snap.schedules,
          activeConversationId := if |convs| > 0 then Some(convs[0].id) else w.session.activeConversationId))
  }

  /** The conversation the load selects is one of the most recently updated. */
  lemma LoadSelectsLatest(w: World, hostOk: bool)
    requires Inv(w) && w.session.phase == Mounted && CanConnect(w.host, hostOk)
    requires |GetAll(w.host.disk.conversations)| > 0
    ensures var r := LoadData(w, hostOk);
      && |r.session.conversations| > 0
      && r.session.activeConversationId == Some(r.session.conversations[0].id)
      && IsMax(r.session.conversations[0], GetAll(w.host.disk.conversations), LastUpdatedAt)
  {
    LoadSelectsHead(w, hostOk);
    HeadIsMax(GetAll(w.host.disk.conversations), LastUpdatedAt);
  }

  /** The load selects the head of the stored conversations sorted newest first. */
  lemma LoadSelectsHead(w: World, hostOk: bool)
    requires Inv(w) && w.session.phase == Mounted && CanConnect(w.host, hostOk)
    requires |GetAll(w.host.disk.conversations)| > 0
    ensures var r := LoadData(w, hostOk);
      && r.session.conversations == SortDesc(GetAll(w.host.disk.conversations), LastUpdatedAt)
      && |r.session.conversations| > 0
      && r.session.activeConversationId == Some(r.session.conversations[0].id)
  {
    var r := LoadData(w, hostOk);
    assert SameRecords(r.host.disk, w.host.disk);
  }

  /** `handleSaveItem`: put the item, reload the items list newest first
      and close the dialog. A rejected write leaves everything as it was. */
  function HandleSaveItem(w: World, hostOk: bool, item: ClothingItem): (r: World)
    ensures !CanConnect(w.host, hostOk) ==> r == w
    ensures Inv(w) && CanConnect(w.host, hostOk) ==>
      && Inv(r)
      && r.host.disk.items == Put(w.host.disk.items, ItemKey, item)
      && r.host.disk.conversations == w.host.disk.conversations
      && r.host.disk.schedules == w.host.disk.schedules
      && r.session == w.session.(items := ItemsView(r.host.disk), modal := Closed)
  {
    match SaveItem(w.host, hostOk, item)
    case Failure(_) => w
    case Success(h) =>
      match GetItems(h, hostOk)
      case Failure(_) => w.(host := h)
      case Success(read) => World(read.host, w.session.(items := SortDesc(read.records, CreatedAt), modal := Closed))
  }

  /** `handleDeleteItem`: only after the user confirms, delete the item and
      reload the items list. Schedules that name the item are untouched. */
  function HandleDeleteItem(w: World, hostOk: bool, id: string, confirmed: bool): (r: World)
    ensures !confirmed || !CanConnect(w.host, hostOk) ==> r == w
    ensures Inv(w) && confirmed && CanConnect(w.host, hostOk) ==>
      && Inv(r)
      && r.host.disk.items == Delete(w.host.disk.items, id)
      && r.host.disk.conversations == w.host.disk.conversations
      && r.host.disk.schedules == w.host.disk.schedules
      && r.session == w.session.(items := ItemsView(r.host.disk))
  {
    if !confirmed then w
    else match DeleteItem(w.host, hostOk, id)
      case Failure(_) => w
      case Success(h) =>
        match GetItems(h, hostOk)
        case Failure(_) => w.(host := h)
        case Success(read) => World(read.host, w.session.(items := SortDesc(read.records, CreatedAt)))
  }

  /** `handleSaveConversation`: put the conversation, reload the list most
      recent first, and make the saved conversation the active one. */
  function HandleSaveConversation(w: World, hostOk: bool, conv: Conversation): (r: World)
    ensures !CanConnect(w.host, hostOk) ==> r == w
    ensures Inv(w) && CanConnect(w.host, hostOk) ==>
      && Inv(r)
      && r.host.disk.conversations == Put(w.host.disk.conversations, ConversationKey, conv)
      && r.host.disk.items == w.host.disk.items
      && r.host.disk.schedules == w.host.disk.schedules
      && r.session == w.session.(conversations := ConversationsView(r.host.disk), activeConversationId := Some(conv.id))
  {
    match SaveConversation(w.host, hostOk, conv)
    case Failure(_) => w
    case Success(h) =>
      match GetConversations(h, hostOk)
      case Failure(_) => w.(host := h)
      case Success(read) =>
        World(read.host, w.session.(conversations := SortDesc(read.records, LastUpdatedAt), activeConversationId := Some(conv.id)))
  }

  /** `handleScheduleOutfit`: file a new schedule under a fresh id and the
      current time, then reload the schedule list. */
  function HandleScheduleOutfit(w: World, hostOk: bool, outfit: OutfitSuggestion, date: string, newId: string, now: int): (r: World)
    ensures !CanConnect(w.host, hostOk) ==> r == w
    ensures Inv(w) && CanConnect(w.host, hostOk) ==>
      && Inv(r)
      && r.host.disk.schedules == Put(w.host.disk.schedules, ScheduleKey, ScheduledOutfit(newId, outfit, date, now))
      && r.host.disk.items == w.host.disk.items
      && r.host.disk.conversations == w.host.disk.conversations
      && r.session == w.session.(scheduled := ScheduleView(r.host.disk))
  {
    match SaveScheduledOutfit(w.host, hostOk, ScheduledOutfit(newId, outfit, date, now))
    case Failure(_) => w
    case Success(h) =>
      match GetScheduledOutfits(h, hostOk)
      case Failure(_) => w.(host := h)
      case Success(read) => World(read.host, w.session.(scheduled := read.records))
  }

  /** `handleDeleteSchedule`: delete the schedule and reload the list. */
  function HandleDeleteSchedule(w: World, hostOk: bool, id: string): (r: World)
    ensures !CanConnect(w.host, hostOk) ==> r == w
    ensures Inv(w) && CanConnect(w.host, hostOk) ==>
      && Inv(r)
      && r.host.disk.schedules == Delete(w.host.disk.schedules, id)
      && r.host.disk.items == w.host.disk.items
      && r.host.disk.conversations == w.host.disk.conversations
      && r.session == w.session.(scheduled := ScheduleView(r.host.disk))
  {
    match DeleteScheduledOutfit(w.host, hostOk, id)
    case Failure(_) => w
    case Success(h) =>
      match GetScheduledOutfits(h, hostOk)
      case Failure(_) => w.(host := h)
      case Success(read) => World(read.host, w.session.(scheduled := read.records))
  }

  /** The header's add button opens the dialog on a new item (an already
      open dialog stays as it is). */
  function OpenAdd(w: World): (r: World)
    ensures r.session.modal.Open?
    ensures w.session.modal.Closed? ==> r.session.modal.editItem.None?
    ensures r.host == w.host && r.session == w.session.(modal := r.session.modal)
  {
    if w.session.modal.Closed? then w.(session := w.session.(modal := Open(None))) else w
  }

  /** `handleEditItem`: open the dialog on an existing item. */
  function EditItem(w: World, item: ClothingItem): (r: World)
    ensures r.session.modal == Open(Some(item))
    ensures r.host == w.host && r.session == w.session.(modal := r.session.modal)
  {
    w.(session := w.session.(modal := Open(Some(item))))
  }

  /** The dialog's close: it is dismissed and the item being edited forgotten. */
  function CloseModal(w: World): (r: World)
    ensures r.session.modal.Closed?
    ensures r.host == w.host && r.session == w.session.(modal := Closed)
    ensures Inv(w) ==> Inv(r)
  {
    w.(session := w.session.(modal := Closed))
  }

  /** The dialog's submit: with a photo, the item built from the form is
      saved; without one nothing happens and the dialog stays open. */
  function SubmitItem(w: World, hostOk: bool, form: ItemForm.Form, newId: string, now: int): (r: World)
    ensures w.session.modal.Closed? || form.photo == "" ==> r == w
    ensures w.session.modal.Open? && form.photo != "" ==>
      r == HandleSaveItem(w, hostOk, ItemForm.Submit(form, w.session.modal.editItem, newId, now).value)
  {
    match w.session.modal
    case Closed => w
    case Open(editItem) =>
      match ItemForm.Submit(form, editItem, newId, now)
      case None => w
      case Some(item) => HandleSaveItem(w, hostOk, item)
  }

  /** Hand each conversation of a send to `handleSaveConversation`, in order. */
  function SaveConversations(w: World, hostOk: bool, convs: seq<Conversation>): (r: World)
    ensures Inv(w) ==> Inv(r)
    ensures |convs| == 0 ==> r == w
    decreases |convs|
  {
    if |convs| == 0 then w
    else SaveConversations(HandleSaveConversation(w, hostOk, convs[0]), hostOk, convs[1..])
  }

  /** A send from the chat box (or a suggestion chip): a new conversation is
      selected first, then the chat's saves go through the conversation
      handler. No reply is pending between events, so the chat's loading
      flag is clear. */
  function Send(w: World, hostOk: bool, input: string, textOverride: Option<string>,
                draws: Chat.Fresh, advice: Option<Chat.Advice>): (r: World)
    ensures Inv(w) ==> Inv(r)
    ensures Strings.IsBlank(Chat.Query(input, textOverride)) ==> r == w
  {
    var sent := Chat.HandleSend(w.session.conversations, w.session.activeConversationId,
                                input, textOverride, false, draws, advice);
    var w1 := if sent.select.Some? then w.(session := w.session.(activeConversationId := sent.select)) else w;
    SaveConversations(w1, hostOk, sent.saves)
  }

  /** A history entry selects its conversation; "new chat" clears the selection. */
  function SelectConversation(w: World, id: Option<string>): (r: World)
    ensures r.session.activeConversationId == id
    ensures r.host == w.host && r.session == w.session.(activeConversationId := id)
    ensures Inv(w) ==> Inv(r)
    ensures id.Some? && (exists i :: 0 <= i < |w.session.conversations| && w.session.conversations[i].id == id.value) ==>
      Chat.ActiveConversation(r.session.conversations, r.session.activeConversationId).Some?
  {
    w.(session := w.session.(activeConversationId := id))
  }

  /** The chat's schedule confirmation: the dialog closes at once, whether
      or not the schedule is then stored. */
  function ConfirmSchedule(w: World, hostOk: bool, newId: string, now: int): (r: World)
    ensures w.session.scheduling.outfit.None? ==> r == w
    ensures r.session.scheduling.outfit.None?
    ensures Inv(w) ==> Inv(r)
    ensures Inv(w) && w.session.phase == Ready && w.session.scheduling.outfit.Some? ==>
      ScheduledOutfit(newId, w.session.scheduling.outfit.value, w.session.scheduling.date, now) in r.session.scheduled
  {
    var (scheduling, request) := Chat.ConfirmSchedule(w.session.scheduling);
    match request
    case None => w
    case Some((outfit, date)) =>
      var w1 := w.(session := w.session.(scheduling := scheduling));
      var r := HandleScheduleOutfit(w1, hostOk, outfit, date, newId, now);
      assert Inv(w) && w.session.phase == Ready ==> ScheduledOutfit(newId, outfit, date, now) in r.session.scheduled by {
        if Inv(w) && w.session.phase == Ready {
          ReadyMeansSynced(w1);
          PutThenGetAll(w1.host.disk.schedules, ScheduleKey, ScheduledOutfit(newId, outfit, date, now));
        }
      }
      r
  }

  /** The reminder on the chat page: the first schedule, in list order,
      filed under today's date. */
  function TodayOutfit(s: Session, today: string): (r: Option<ScheduledOutfit>)
    ensures r.None? <==> forall i :: 0 <= i < |s.scheduled| ==> s.scheduled[i].date != today
    ensures r.Some? ==> r.value in s.scheduled && r.value.date == today
  {
    Find(s.scheduled, (x: ScheduledOutfit) => x.date == today)
  }

  /** Everything that can happen to the page. */
  datatype Event =
    | Load(hostOk: bool)
    | OpenAddDialog
    | OpenEditDialog(item: ClothingItem)
    | CloseDialog
    | SubmitDialog(form: ItemForm.Form, newId: string, now: int, hostOk: bool)
    | RemoveItem(id: string, confirmed: bool, hostOk: bool)
    | SendMessage(input: string, textOverride: Option<string>, draws: Chat.Fresh, advice: Option<Chat.Advice>, hostOk: bool)
    | Select(selection: Option<string>)
    | ChooseOutfit(outfit: OutfitSuggestion)
    | ChooseDate(date: string)
    | CancelScheduling
    | ConfirmScheduling(newId: string, now: int, hostOk: bool)
    | RemoveSchedule(id: string, hostOk: bool)

  function Step(w: World, e: Event): World
  {
    match e
    case Load(ok) => LoadData(w, ok)
    case OpenAddDialog => OpenAdd(w)
    case OpenEditDialog(item) => EditItem(w, item)
    case CloseDialog => CloseModal(w)
    case SubmitDialog(form, newId, now, ok) => SubmitItem(w, ok, form, newId, now)
    case RemoveItem(id, confirmed, ok) => HandleDeleteItem(w, ok, id, confirmed)
    case SendMessage(input, textOverride, draws, advice, ok) => Send(w, ok, input, textOverride, draws, advice)
    case Select(id) => SelectConversation(w, id)
    case ChooseOutfit(outfit) => w.(session := w.session.(scheduling := Chat.PickOutfit(w.session.scheduling, outfit)))
    case ChooseDate(date) => w.(session := w.session.(scheduling := w.session.scheduling.(date := date)))
    case CancelScheduling => w.(session := w.session.(scheduling := w.session.scheduling.(outfit := None)))
    case ConfirmScheduling(newId, now, ok) => ConfirmSchedule(w, ok, newId, now)
    case RemoveSchedule(id, ok) => HandleDeleteSchedule(w, ok, id)
  }

  /** Every event keeps each list on screen equal to its store (once loaded). */
  lemma StepPreservesInv(w: World, e: Event)
    requires Inv(w)
    ensures Inv(Step(w, e))
  {
  }

  function Run(w: World, es: seq<Event>): World
    decreases |es|
  {
    if |es| == 0 then w else Run(Step(w, es[0]), es[1..])
  }

  /** From a valid database, any sequence of events keeps the invariant. */
  lemma {:induction false} RunPreservesInv(w: World, es: seq<Event>)
    requires Inv(w)
    ensures Inv(Run(w, es))
    decreases |es|
  {
    if |es| > 0 {
      StepPreservesInv(w, es[0]);
      RunPreservesInv(Step(w, es[0]), es[1..]);
    }
  }
}
