/** The storage service (services/storage.ts): one IndexedDB database,
    "ClosetDB" at version 2, holding three independent object stores keyed
    by `id`, reached through a lazily opened and then cached connection. */
module Storage {
  import opened Wrappers
  import opened Types
  import opened ObjectStore

  const DbName: string := "ClosetDB"
  const DbVersion: nat := 2

  datatype StoreName = ItemsStore | ChatsStore | ScheduleStore

  function StoreNameString(n: StoreName): string
  {
    match n
    case ItemsStore => "clothing_items"
    case ChatsStore => "conversations"
    case ScheduleStore => "scheduled_outfits"
  }

  const AllStores: set<StoreName> := {ItemsStore, ChatsStore, ScheduleStore}

  /** The database as it sits on the device: schema version (0 before it
      was ever created), the object stores its schema has, and their records. */
  datatype Database = Database(
    version: nat,
    stores: set<StoreName>,
    items: map<string, ClothingItem>,
    conversations: map<string, Conversation>,
    schedules: map<string, ScheduledOutfit>)

  /** A store the schema lacks holds nothing, every record sits under its own
      id, and a database at the current version has all three stores. */
  predicate Valid(db: Database)
  {
    && (ItemsStore !in db.stores ==> db.items == map[])
    && (ChatsStore !in db.stores ==> db.conversations == map[])
    && (ScheduleStore !in db.stores ==> db.schedules == map[])
    && KeyedBy(db.items, ItemKey)
    && KeyedBy(db.conversations, ConversationKey)
    && KeyedBy(db.schedules, ScheduleKey)
    && (db.version == DbVersion ==> db.stores == AllStores)
  }

  /** The records of the three stores, apart from the schema. */
  predicate SameRecords(a: Database, b: Database)
  {
    a.items == b.items && a.conversations == b.conversations && a.schedules == b.schedules
  }

  /** `if (!db.objectStoreNames.contains(name)) db.createObjectStore(name)`:
      a new store starts empty; an existing one is left as it is. */
  function CreateIfMissing(db: Database, name: StoreName): (r: Database)
    ensures r.stores == db.stores + {name}
    ensures name in db.stores ==> r == db
    ensures r.version == db.version
  {
    if name in db.stores then db
    else
      var db1 := db.(stores := db.stores + {name});
      match name
      case ItemsStore => db1.(items := map[])
      case ChatsStore => db1.(conversations := map[])
      case ScheduleStore => db1.(schedules := map[])
  }

  /** The `onupgradeneeded` handler, run at the new version. */
  function Upgrade(db: Database): (r: Database)
    ensures r.version == DbVersion
    ensures r.stores == AllStores
    ensures ItemsStore in db.stores ==> r.items == db.items
    ensures ChatsStore in db.stores ==> r.conversations == db.conversations
    ensures ScheduleStore in db.stores ==> r.schedules == db.schedules
    ensures Valid(db) ==> Valid(r) && SameRecords(r, db)
  {
    var db0 := db.(version := DbVersion);
    assert db.stores <= AllStores by {
      forall n | n in db.stores ensures n in AllStores {
        if n.ItemsStore? {
        } else if n.ChatsStore? {
        } else {
        }
      }
    }
    CreateIfMissing(CreateIfMissing(CreateIfMissing(db0, ItemsStore), ChatsStore), ScheduleStore)
  }

  /** Running the upgrade on an upgraded database changes nothing. */
  lemma UpgradeIdempotent(db: Database)
    ensures Upgrade(Upgrade(db)) == Upgrade(db)
  {
  }

  datatype StorageError = OpenFailed

  /** `indexedDB.open(DB_NAME, DB_VERSION)`. `hostOk` is whether the host
      grants the request; a database stored at a later version refuses a
      connection at version 2 (a VersionError); an older one is upgraded. */
  function Open(db: Database, hostOk: bool): (r: Result<Database, StorageError>)
    ensures r.Success? <==> hostOk && db.version <= DbVersion
    ensures r.Success? ==> r.value.version == DbVersion
    ensures Valid(db) && r.Success? ==> Valid(r.value) && r.value.stores == AllStores && SameRecords(r.value, db)
    ensures r.Success? && db.version == DbVersion ==> r.value == db
  {
    if !hostOk || db.version > DbVersion then Failure(OpenFailed)
    else if db.version < DbVersion then Success(Upgrade(db))
    else Success(db)
  }

  /** Opening a database that an open already brought to version 2 performs
      no structural change. */
  lemma OpenTwiceIsOpenOnce(db: Database, hostOk: bool)
    requires Open(db, hostOk).Success?
    ensures Open(Open(db, hostOk).value, hostOk) == Open(db, hostOk)
  {
  }

  /** The service: the device's database plus the cached connection
      (`this.db`), and how many connections it has opened. */
  datatype Host = Host(disk: Database, connected: bool, opens: nat)

  function InitialHost(disk: Database): Host
  {
    Host(disk, false, 0)
  }

  /** A cached connection is at the current version, and the service has
      opened a connection only if it caches one, and then only once. */
  predicate HostValid(h: Host)
  {
    && Valid(h.disk)
    && (h.connected ==> h.disk.version == DbVersion)
    && h.opens == (if h.connected then 1 else 0)
  }

  predicate CanConnect(h: Host, hostOk: bool)
  {
    h.connected || (hostOk && h.disk.version <= DbVersion)
  }

  /** `getDB`: reuse the cached connection, or open one and cache it. */
  function GetDb(h: Host, hostOk: bool): (r: Result<Host, StorageError>)
    ensures r.Success? <==> CanConnect(h, hostOk)
    ensures h.connected ==> r == Success(h)
    ensures r.Success? ==> r.value.connected && r.value.opens == (if h.connected then h.opens else h.opens + 1)
    ensures HostValid(h) && r.Success? ==>
      HostValid(r.value) && r.value.disk.stores == AllStores && SameRecords(r.value.disk, h.disk)
  {
    if h.connected then Success(h)
    else match Open(h.disk, hostOk)
      case Failure(e) => Failure(e)
      case Success(db) => Success(Host(db, true, h.opens + 1))
  }

  /** What a read hands back: the service afterwards and the records. */
  datatype Read<T> = Read(host: Host, records: seq<T>)

  /** `saveItem`: put into the items store; the other stores are untouched. */
  function SaveItem(h: Host, hostOk: bool, item: ClothingItem): (r: Result<Host, StorageError>)
    ensures r.Success? <==> CanConnect(h, hostOk)
    ensures HostValid(h) && r.Success? ==>
      && HostValid(r.value) && r.value.connected
      && r.value.disk.items == Put(h.disk.items, ItemKey, item)
      && r.value.disk.conversations == h.disk.conversations
      && r.value.disk.schedules == h.disk.schedules
  {
    match GetDb(h, hostOk)
    case Failure(e) => Failure(e)
    case Success(c) => Success(c.(disk := c.disk.(items := Put(c.disk.items, ItemKey, item))))
  }

  /** `getItems`: getAll on the items store. */
  function GetItems(h: Host, hostOk: bool): (r: Result<Read<ClothingItem>, StorageError>)
    ensures r.Success? <==> CanConnect(h, hostOk)
    ensures h.connected ==> r.Success? && r.value.host == h
    ensures HostValid(h) && r.Success? ==>
      && HostValid(r.value.host) && r.value.host.connected
      && SameRecords(r.value.host.disk, h.disk)
      && r.value.records == GetAll(h.disk.items)
  {
    match GetDb(h, hostOk)
    case Failure(e) => Failure(e)
    case Success(c) => Success(Read(c, GetAll(c.disk.items)))
  }

  /** `deleteItem`: delete on the items store only; schedules that name the
      item keep it (no cascade). */
  function DeleteItem(h: Host, hostOk: bool, id: string): (r: Result<Host, StorageError>)
    ensures r.Success? <==> CanConnect(h, hostOk)
    ensures HostValid(h) && r.Success? ==>
      && HostValid(r.value) && r.value.connected
      && r.value.disk.items == Delete(h.disk.items, id)
      && r.value.disk.conversations == h.disk.conversations
      && r.value.disk.schedules == h.disk.schedules
  {
    match GetDb(h, hostOk)
    case Failure(e) => Failure(e)
    case Success(c) => Success(c.(disk := c.disk.(items := Delete(c.disk.items, id))))
  }

  /** `saveConversation`: put into the conversations store only. */
  function SaveConversation(h: Host, hostOk: bool, conv: Conversation): (r: Result<Host, StorageError>)
    ensures r.Success? <==> CanConnect(h, hostOk)
    ensures HostValid(h) && r.Success? ==>
      && HostValid(r.value) && r.value.connected
      && r.value.disk.conversations == Put(h.disk.conversations, ConversationKey, conv)
      && r.value.disk.items == h.disk.items
      && r.value.disk.schedules == h.disk.schedules
  {
    match GetDb(h, hostOk)
    case Failure(e) => Failure(e)
    case Success(c) => Success(c.(disk := c.disk.(conversations := Put(c.disk.conversations, ConversationKey, conv))))
  }

  /** `getConversations`: getAll on the conversations store. */
  function GetConversations(h: Host, hostOk: bool): (r: Result<Read<Conversation>, StorageError>)
    ensures r.Success? <==> CanConnect(h, hostOk)
    ensures h.connected ==> r.Success? && r.value.host == h
    ensures HostValid(h) && r.Success? ==>
      && HostValid(r.value.host) && r.value.host.connected
      && SameRecords(r.value.host.disk, h.disk)
      && r.value.records == GetAll(h.disk.conversations)
  {
    match GetDb(h, hostOk)
    case Failure(e) => Failure(e)
    case Success(c) => Success(Read(c, GetAll(c.disk.conversations)))
  }

  /** `saveScheduledOutfit`: put into the schedule store only. */
  function SaveScheduledOutfit(h: Host, hostOk: bool, s: ScheduledOutfit): (r: Result<Host, StorageError>)
    ensures r.Success? <==> CanConnect(h, hostOk)
    ensures HostValid(h) && r.Success? ==>
      && HostValid(r.value) && r.value.connected
      && r.value.disk.schedules == Put(h.disk.schedules, ScheduleKey, s)
      && r.value.disk.items == h.disk.items
      && r.value.disk.conversations == h.disk.conversations
  {
    match GetDb(h, hostOk)
    case Failure(e) => Failure(e)
    case Success(c) => Success(c.(disk := c.disk.(schedules := Put(c.disk.schedules, ScheduleKey, s))))
  }

  /** `getScheduledOutfits`: getAll on the schedule store. */
  function GetScheduledOutfits(h: Host, hostOk: bool): (r: Result<Read<ScheduledOutfit>, StorageError>)
    ensures r.Success? <==> CanConnect(h, hostOk)
    ensures h.connected ==> r.Success? && r.value.host == h
    ensures HostValid(h) && r.Success? ==>
      && HostValid(r.value.host) && r.value.host.connected
      && SameRecords(r.value.host.disk, h.disk)
      && r.value.records == GetAll(h.disk.schedules)
  {
    match GetDb(h, hostOk)
    case Failure(e) => Failure(e)
    case Success(c) => Success(Read(c, GetAll(c.disk.schedules)))
  }

  /** `deleteScheduledOutfit`: delete on the schedule store only. */
  function DeleteScheduledOutfit(h: Host, hostOk: bool, id: string): (r: Result<Host, StorageError>)
    ensures r.Success? <==> CanConnect(h, hostOk)
    ensures HostValid(h) && r.Success? ==>
      && HostValid(r.value) && r.value.connected
      && r.value.disk.schedules == Delete(h.disk.schedules, id)
      && r.value.disk.items == h.disk.items
      && r.value.disk.conversations == h.disk.conversations
  {
    match GetDb(h, hostOk)
    case Failure(e) => Failure(e)
    case Success(c) => Success(c.(disk := c.disk.(schedules := Delete(c.disk.schedules, id))))
  }
}
