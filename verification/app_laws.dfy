/** Properties of the page as a whole (App.tsx with its views): what the
    lists on screen show after each handler, once the initial load has
    happened. */
module AppLaws {
  import opened Wrappers
  import opened Types
  import opened Seqs
  import opened Sorting
  import opened ObjectStore
  import opened Storage
  import opened App
  import Keys
  import Strings
  import Outfits
  import Chat

  /** Records with the same key are the same record. */
  ghost predicate KeyDetermines<R>(s: seq<R>, keyOf: R -> string)
  {
    forall i, j :: 0 <= i < |s| && 0 <= j < |s| && keyOf(s[i]) == keyOf(s[j]) ==> s[i] == s[j]
  }

  /** A store's records listed in any order have one record per key. */
  lemma ListedKeyDetermines<R>(store: map<string, R>, keyOf: R -> string, v: seq<R>)
    requires KeyedBy(store, keyOf)
    requires multiset(v) == multiset(GetAll(store))
    ensures KeyDetermines(v, keyOf)
  {
    var rs := GetAll(store);
    forall i, j | 0 <= i < |v| && 0 <= j < |v| && keyOf(v[i]) == keyOf(v[j]) ensures v[i] == v[j] {
      assert v[i] in multiset(v) && v[j] in multiset(v);
      var a :| 0 <= a < |rs| && rs[a] == v[i];
      var b :| 0 <= b < |rs| && rs[b] == v[j];
      GetAllOnePerKey(store, keyOf, a, b);
    }
  }

  /** A store record with a key other than the written one is listed
      before the write exactly when it is listed after it. */
  lemma OtherKeyListed<R>(store: map<string, R>, keyOf: R -> string, s': map<string, R>, x: R, key: string)
    requires KeyedBy(store, keyOf) && KeyedBy(s', keyOf)
    requires keyOf(x) != key
    requires forall k :: k != key ==> (k in s' <==> k in store) && (k in s' ==> s'[k] == store[k])
    ensures x in GetAll(store) <==> x in GetAll(s')
  {
    if x in GetAll(store) {
      var k :| k in store && store[k] == x;
    }
    if x in GetAll(s') {
      var k :| k in s' && s'[k] == x;
    }
  }

  /** `v` is the listing `before` after an upsert of `r`: r appears, as the
      only record with its key; every other record is carried over; nothing
      else appears; the count grows by one exactly for a new key. */
  predicate Upserted<R(==)>(before: seq<R>, v: seq<R>, keyOf: R -> string, r: R, isNew: bool)
  {
    && r in v
    && (forall i :: 0 <= i < |v| && keyOf(v[i]) == keyOf(r) ==> v[i] == r)
    && (forall i :: 0 <= i < |before| && keyOf(before[i]) != keyOf(r) ==> before[i] in v)
    && (forall i :: 0 <= i < |v| && keyOf(v[i]) != keyOf(r) ==> v[i] in before)
    && |v| == |before| + (if isNew then 1 else 0)
  }

  /** A listing sorted by any key after put(r) is the upsert of r into the
      listing before it. */
  lemma SortedPutView<R>(store: map<string, R>, keyOf: R -> string, key: R -> int, r: R)
    requires KeyedBy(store, keyOf)
    ensures Upserted(SortDesc(GetAll(store), key), SortDesc(GetAll(Put(store, keyOf, r)), key), keyOf, r, keyOf(r) !in store)
  {
    SortedPutHas(store, keyOf, key, r);
    SortedPutKeeps(store, keyOf, key, r);
    SortedPutAddsNothingElse(store, keyOf, key, r);
  }

  lemma SortedPutHas<R>(store: map<string, R>, keyOf: R -> string, key: R -> int, r: R)
    requires KeyedBy(store, keyOf)
    ensures var v := SortDesc(GetAll(Put(store, keyOf, r)), key);
      && r in v
      && (forall i :: 0 <= i < |v| && keyOf(v[i]) == keyOf(r) ==> v[i] == r)
      && |v| == |SortDesc(GetAll(store), key)| + (if keyOf(r) in store then 0 else 1)
  {
    var s' := Put(store, keyOf, r);
    var v := SortDesc(GetAll(s'), key);
    PutThenGetAll(store, keyOf, r);
    assert r in multiset(GetAll(s'));
    forall i | 0 <= i < |v| && keyOf(v[i]) == keyOf(r) ensures v[i] == r {
      assert v[i] in multiset(v);
    }
  }

  lemma SortedPutKeeps<R>(store: map<string, R>, keyOf: R -> string, key: R -> int, r: R)
    requires KeyedBy(store, keyOf)
    ensures var before := SortDesc(GetAll(store), key);
      var v := SortDesc(GetAll(Put(store, keyOf, r)), key);
      forall i :: 0 <= i < |before| && keyOf(before[i]) != keyOf(r) ==> before[i] in v
  {
    var s' := Put(store, keyOf, r);
    var before := SortDesc(GetAll(store), key);
    var v := SortDesc(GetAll(s'), key);
    forall i | 0 <= i < |before| && keyOf(before[i]) != keyOf(r) ensures before[i] in v {
      assert before[i] in multiset(before);
      OtherKeyListed(store, keyOf, s', before[i], keyOf(r));
      assert before[i] in multiset(GetAll(s'));
    }
  }

  lemma SortedPutAddsNothingElse<R>(store: map<string, R>, keyOf: R -> string, key: R -> int, r: R)
    requires KeyedBy(store, keyOf)
    ensures var before := SortDesc(GetAll(store), key);
      var v := SortDesc(GetAll(Put(store, keyOf, r)), key);
      forall i :: 0 <= i < |v| && keyOf(v[i]) != keyOf(r) ==> v[i] in before
  {
    var s' := Put(store, keyOf, r);
    var before := SortDesc(GetAll(store), key);
    var v := SortDesc(GetAll(s'), key);
    forall i | 0 <= i < |v| && keyOf(v[i]) != keyOf(r) ensures v[i] in before {
      assert v[i] in multiset(v);
      OtherKeyListed(store, keyOf, s', v[i], keyOf(r));
      assert v[i] in multiset(GetAll(store));
    }
  }

  /** Saving an item from the dialog, once loaded: the item is listed
      exactly once under its id, every other item is still listed, nothing
      else appears, the list stays newest first, and it grows only for a
      new id. The conversation and schedule lists are untouched. */
  lemma SaveItemUpserts(w: World, hostOk: bool, item: ClothingItem)
    requires Inv(w) && w.session.phase == Ready
    ensures var r := HandleSaveItem(w, hostOk, item);
      && Upserted(w.session.items, r.session.items, ItemKey, item, item.id !in w.host.disk.items)
      && SortedDesc(r.session.items, CreatedAt)
      && r.session.conversations == w.session.conversations
      && r.session.scheduled == w.session.scheduled
  {
    var r := HandleSaveItem(w, hostOk, item);
    var store := w.host.disk.items;
    assert && r.session.items == SortDesc(GetAll(Put(store, ItemKey, item)), CreatedAt)
           && w.session.items == SortDesc(GetAll(store), CreatedAt)
           && r.session.conversations == w.session.conversations
           && r.session.scheduled == w.session.scheduled
           && KeyedBy(store, ItemKey) by {
      ReadyMeansSynced(w);
      assert CanConnect(w.host, hostOk);
    }
    SortedPutView(store, ItemKey, CreatedAt, item);
  }

  /** The items list after delete(id), stated by item id; ids still
      single out items. */
  lemma ItemListingAfterDelete(store: map<string, ClothingItem>, id: string)
    requires KeyedBy(store, ItemKey)
    ensures var before := SortDesc(GetAll(store), CreatedAt);
      var v := SortDesc(GetAll(Delete(store, id)), CreatedAt);
      Outfits.RemovedFrom(before, v, id)
  {
    ItemDeleteDropsOnlyId(store, id);
    ItemDeleteKeepsOthers(store, id);
  }

  lemma ItemDeleteDropsOnlyId(store: map<string, ClothingItem>, id: string)
    requires KeyedBy(store, ItemKey)
    ensures var before := SortDesc(GetAll(store), CreatedAt);
      var v := SortDesc(GetAll(Delete(store, id)), CreatedAt);
      forall i :: 0 <= i < |v| ==> v[i] in before && v[i].id != id
  {
    var s' := Delete(store, id);
    var before := SortDesc(GetAll(store), CreatedAt);
    var v := SortDesc(GetAll(s'), CreatedAt);
    forall i | 0 <= i < |v| ensures v[i] in before && v[i].id != id {
      assert v[i] in multiset(v);
      var k :| k in s' && s'[k] == v[i];
      OtherKeyListed(store, ItemKey, s', v[i], id);
      assert v[i] in multiset(GetAll(store));
    }
  }

  lemma ItemDeleteKeepsOthers(store: map<string, ClothingItem>, id: string)
    requires KeyedBy(store, ItemKey)
    ensures var before := SortDesc(GetAll(store), CreatedAt);
      var v := SortDesc(GetAll(Delete(store, id)), CreatedAt);
      forall i :: 0 <= i < |before| && before[i].id != id ==> before[i] in v
  {
    var s' := Delete(store, id);
    var before := SortDesc(GetAll(store), CreatedAt);
    var v := SortDesc(GetAll(s'), CreatedAt);
    forall i | 0 <= i < |before| && before[i].id != id ensures before[i] in v {
      assert before[i] in multiset(before);
      OtherKeyListed(store, ItemKey, s', before[i], id);
      assert before[i] in multiset(GetAll(s'));
    }
  }

  /** In the items list an id singles out one item. */
  lemma ItemIdsDetermine(store: map<string, ClothingItem>)
    requires KeyedBy(store, ItemKey)
    ensures Outfits.IdsDetermineItems(SortDesc(GetAll(store), CreatedAt))
  {
    var before := SortDesc(GetAll(store), CreatedAt);
    ListedKeyDetermines(store, ItemKey, before);
    forall a, b | 0 <= a < |before| && 0 <= b < |before| && before[a].id == before[b].id
      ensures before[a] == before[b]
    {
      assert ItemKey(before[a]) == ItemKey(before[b]);
    }
  }

  /** Deleting an item, once confirmed and loaded: it leaves the list and
      nothing else does. Schedules are not touched; an outfit that named
      the item simply resolves to its other pieces. */
  lemma DeleteItemNoCascade(w: World, hostOk: bool, id: string)
    requires Inv(w) && w.session.phase == Ready
    ensures var r := HandleDeleteItem(w, hostOk, id, true);
      var before := w.session.items;
      var v := r.session.items;
      && Outfits.RemovedFrom(before, v, id)
      && r.session.scheduled == w.session.scheduled
      && r.host.disk.schedules == w.host.disk.schedules
      && forall j :: 0 <= j < |r.session.scheduled| ==>
           Outfits.ResolveItems(r.session.scheduled[j].outfit.itemIds, v) ==
           Filter(Outfits.ResolveItems(r.session.scheduled[j].outfit.itemIds, before), Outfits.IdIsNot(id))
  {
    var r := HandleDeleteItem(w, hostOk, id, true);
    var store := w.host.disk.items;
    assert && r.session.items == SortDesc(GetAll(Delete(store, id)), CreatedAt)
           && w.session.items == SortDesc(GetAll(store), CreatedAt)
           && r.session.scheduled == w.session.scheduled
           && r.host.disk.schedules == w.host.disk.schedules
           && KeyedBy(store, ItemKey) by {
      ReadyMeansSynced(w);
      assert CanConnect(w.host, hostOk);
    }
    ItemListingAfterDelete(store, id);
    ScheduleResolvesAfterDelete(store, id, r.session.scheduled);
  }

  /** Outfits keep their ids when an item is deleted; each one resolves
      against the new listing to the old resolution minus the removed item. */
  lemma ScheduleResolvesAfterDelete(store: map<string, ClothingItem>, id: string, scheduled: seq<ScheduledOutfit>)
    requires KeyedBy(store, ItemKey)
    ensures var before := SortDesc(GetAll(store), CreatedAt);
      var v := SortDesc(GetAll(Delete(store, id)), CreatedAt);
      forall j :: 0 <= j < |scheduled| ==>
        Outfits.ResolveItems(scheduled[j].outfit.itemIds, v) ==
        Filter(Outfits.ResolveItems(scheduled[j].outfit.itemIds, before), Outfits.IdIsNot(id))
  {
    var before := SortDesc(GetAll(store), CreatedAt);
    var v := SortDesc(GetAll(Delete(store, id)), CreatedAt);
    ItemListingAfterDelete(store, id);
    ItemIdsDetermine(store);
    forall j | 0 <= j < |scheduled|
      ensures Outfits.ResolveItems(scheduled[j].outfit.itemIds, v) ==
              Filter(Outfits.ResolveItems(scheduled[j].outfit.itemIds, before), Outfits.IdIsNot(id))
    {
      Outfits.ResolveAfterRemoval(scheduled[j].outfit.itemIds, before, v, id);
    }
  }

  /** Saving a conversation, once loaded, makes it the active one, shown
      exactly as saved. */
  lemma SaveConversationActivates(w: World, hostOk: bool, conv: Conversation)
    requires Inv(w) && w.session.phase == Ready
    ensures var r := HandleSaveConversation(w, hostOk, conv);
      && Inv(r) && r.session.phase == Ready
      && Chat.ActiveConversation(r.session.conversations, r.session.activeConversationId) == Some(conv)
  {
    var r := HandleSaveConversation(w, hostOk, conv);
    var store := w.host.disk.conversations;
    assert && Inv(r) && r.session.phase == Ready
           && r.session.conversations == SortDesc(GetAll(Put(store, ConversationKey, conv)), LastUpdatedAt)
           && r.session.activeConversationId == Some(conv.id)
           && KeyedBy(store, ConversationKey) by {
      ReadyMeansSynced(w);
      assert CanConnect(w.host, hostOk);
    }
    ListedAfterPutIsActive(store, conv);
  }

  /** Looking up a just-saved conversation's id in the new listing finds it. */
  lemma ListedAfterPutIsActive(store: map<string, Conversation>, conv: Conversation)
    requires KeyedBy(store, ConversationKey)
    ensures Chat.ActiveConversation(SortDesc(GetAll(Put(store, ConversationKey, conv)), LastUpdatedAt), Some(conv.id)) == Some(conv)
  {
    var v := SortDesc(GetAll(Put(store, ConversationKey, conv)), LastUpdatedAt);
    SortedPutHas(store, ConversationKey, LastUpdatedAt, conv);
    Chat.ActiveIsOnlyMatch(v, conv);
  }

  /** A record put with a sort key above every other record's heads the
      sorted listing. */
  lemma LatestPutHeadsList<R>(store: map<string, R>, keyOf: R -> string, key: R -> int, r: R)
    requires KeyedBy(store, keyOf)
    requires forall k :: k in store && k != keyOf(r) ==> key(store[k]) < key(r)
    ensures var v := SortDesc(GetAll(Put(store, keyOf, r)), key);
      |v| > 0 && v[0] == r
  {
    var s' := Put(store, keyOf, r);
    var rs := GetAll(s');
    PutThenGetAll(store, keyOf, r);
    HeadIsMax(rs, key);
    var h := SortDesc(rs, key)[0];
    assert key(r) <= key(h) by {
      var j :| 0 <= j < |rs| && rs[j] == r;
    }
    var i :| 0 <= i < |rs| && rs[i] == h;
    var k :| k in s' && s'[k] == h;
    assert keyOf(h) == k;
  }

  /** Saving a conversation stamped later than every other stored one puts
      it at the top of the history list, as a send does with the current
      time. */
  lemma SavedLatestIsFirst(w: World, hostOk: bool, conv: Conversation)
    requires Inv(w) && w.session.phase == Ready
    requires forall k :: k in w.host.disk.conversations && k != conv.id ==>
      w.host.disk.conversations[k].lastUpdatedAt < conv.lastUpdatedAt
    ensures var r := HandleSaveConversation(w, hostOk, conv);
      |r.session.conversations| > 0 && r.session.conversations[0] == conv
  {
    var store := w.host.disk.conversations;
    assert && HandleSaveConversation(w, hostOk, conv).session.conversations ==
              SortDesc(GetAll(Put(store, ConversationKey, conv)), LastUpdatedAt)
           && KeyedBy(store, ConversationKey) by {
      ReadyMeansSynced(w);
      assert CanConnect(w.host, hostOk);
    }
    LatestPutHeadsList(store, ConversationKey, LastUpdatedAt, conv);
  }

  lemma {:induction false} SaveConversationsActivatesLast(w: World, hostOk: bool, convs: seq<Conversation>)
    requires Inv(w) && w.session.phase == Ready && |convs| > 0
    ensures var r := SaveConversations(w, hostOk, convs);
      && r.session.phase == Ready
      && Chat.ActiveConversation(r.session.conversations, r.session.activeConversationId) == Some(convs[|convs| - 1])
    decreases |convs|
  {
    var w1 := HandleSaveConversation(w, hostOk, convs[0]);
    SaveConversationActivates(w, hostOk, convs[0]);
    if |convs| > 1 {
      SaveConversationsActivatesLast(w1, hostOk, convs[1..]);
    }
  }

  /** A send, once loaded, ends with its last save active. */
  lemma SendActivatesLastSave(w: World, hostOk: bool, input: string, textOverride: Option<string>,
                              draws: Chat.Fresh, advice: Option<Chat.Advice>)
    requires Inv(w) && w.session.phase == Ready
    requires !Strings.IsBlank(Chat.Query(input, textOverride))
    ensures var sent := Chat.HandleSend(w.session.conversations, w.session.activeConversationId,
                                        input, textOverride, false, draws, advice);
      var r := Send(w, hostOk, input, textOverride, draws, advice);
      && |sent.saves| > 0
      && Chat.ActiveConversation(r.session.conversations, r.session.activeConversationId) == Some(sent.saves[|sent.saves| - 1])
  {
    var sent := Chat.HandleSend(w.session.conversations, w.session.activeConversationId,
                                input, textOverride, false, draws, advice);
    var w1 := if sent.select.Some? then w.(session := w.session.(activeConversationId := sent.select)) else w;
    assert |sent.saves| > 0;
    assert Inv(w1) && w1.session.phase == Ready;
    SaveConversationsActivatesLast(w1, hostOk, sent.saves);
  }

  /** A send, once loaded, leaves the conversation it went to active and
      shown with the turn appended: the active conversation keeps its id,
      title and history; with none active a new one holds just the turn. */
  lemma SendRecordsTurn(w: World, hostOk: bool, input: string, textOverride: Option<string>,
                        draws: Chat.Fresh, advice: Option<Chat.Advice>)
    requires Inv(w) && w.session.phase == Ready
    requires !Strings.IsBlank(Chat.Query(input, textOverride))
    ensures var q := Chat.Query(input, textOverride);
      var r := Send(w, hostOk, input, textOverride, draws, advice);
      var before := Chat.ActiveConversation(w.session.conversations, w.session.activeConversationId);
      var after := Chat.ActiveConversation(r.session.conversations, r.session.activeConversationId);
      && after.Some?
      && (before.Some? ==>
            && after.value.id == before.value.id && after.value.title == before.value.title
            && after.value.messages == before.value.messages + Chat.Turn(q, draws, advice))
      && (before.None? ==>
            && after.value.id == draws.convId && after.value.title == Chat.Title(q)
            && after.value.messages == Chat.Turn(q, draws, advice))
  {
    SendActivatesLastSave(w, hostOk, input, textOverride, draws, advice);
    Chat.SendLastSave(w.session.conversations, w.session.activeConversationId, input, textOverride, draws, advice);
  }

  /** The first record of a store's listing that satisfies p is the one
      with the least key among those that do. */
  lemma FindInListing<R>(store: map<string, R>, keyOf: R -> string, p: R -> bool)
    requires KeyedBy(store, keyOf)
    ensures var t := Find(GetAll(store), p);
      && (t.None? <==> forall k :: k in store ==> !p(store[k]))
      && (t.Some? ==> keyOf(t.value) in store && store[keyOf(t.value)] == t.value && p(t.value))
      && (t.Some? ==> forall k :: k in store && p(store[k]) ==> k == keyOf(t.value) || Keys.Less(keyOf(t.value), k))
  {
    var rs := GetAll(store);
    match FindIndex(rs, p)
    case Some(i) =>
      assert Find(rs, p) == Some(rs[i]);
      FirstMatchLeast(store, keyOf, p, i);
    case None =>
      assert Find(rs, p).None?;
      NoMatchInStore(store, p);
  }

  lemma NoMatchInStore<R>(store: map<string, R>, p: R -> bool)
    requires forall i :: 0 <= i < |GetAll(store)| ==> !p(GetAll(store)[i])
    ensures forall k :: k in store ==> !p(store[k])
  {
    var rs := GetAll(store);
    forall k | k in store ensures !p(store[k]) {
      assert store[k] in rs;
    }
  }

  /** A listed record before which no record satisfies p has the least key
      among the records that satisfy p. */
  lemma FirstMatchLeast<R>(store: map<string, R>, keyOf: R -> string, p: R -> bool, i: int)
    requires KeyedBy(store, keyOf)
    requires 0 <= i < |GetAll(store)|
    requires forall j :: 0 <= j < i ==> !p(GetAll(store)[j])
    ensures var x := GetAll(store)[i];
      && keyOf(x) in store && store[keyOf(x)] == x
      && (p(x) ==> forall k :: k in store && p(store[k]) ==> k == keyOf(x) || Keys.Less(keyOf(x), k))
  {
    var rs := GetAll(store);
    assert Keys.Ascending(KeysOf(rs, keyOf)) && keyOf(rs[i]) in store && store[keyOf(rs[i])] == rs[i] by {
      GetAllOrdered(store, keyOf);
    }
    FirstMatchLeastKey(rs, keyOf, p, i);
    forall k | k in store && p(store[k]) ensures k == keyOf(rs[i]) || Keys.Less(keyOf(rs[i]), k) {
      var j :| 0 <= j < |rs| && rs[j] == store[k];
    }
  }

  /** In a listing with ascending keys, the first record satisfying p has
      a key below every other record satisfying p. */
  lemma FirstMatchLeastKey<R>(rs: seq<R>, keyOf: R -> string, p: R -> bool, i: int)
    requires Keys.Ascending(KeysOf(rs, keyOf))
    requires 0 <= i < |rs|
    requires forall j :: 0 <= j < i ==> !p(rs[j])
    ensures forall j :: 0 <= j < |rs| && p(rs[j]) ==> j == i || Keys.Less(keyOf(rs[i]), keyOf(rs[j]))
  {
    var ks := KeysOf(rs, keyOf);
    forall j | 0 <= j < |rs| && p(rs[j]) ensures j == i || Keys.Less(keyOf(rs[i]), keyOf(rs[j])) {
      if j != i {
        assert ks[i] == keyOf(rs[i]) && ks[j] == keyOf(rs[j]);
      }
    }
  }

  /** The reminder, once loaded, is the schedule for today with the least
      id, and there is one exactly when some stored schedule is for today. */
  lemma TodayOutfitLeastId(w: World, today: string)
    requires Inv(w) && w.session.phase == Ready
    ensures var t := TodayOutfit(w.session, today);
      var stored := w.host.disk.schedules;
      && (t.None? <==> forall k :: k in stored ==> stored[k].date != today)
      && (t.Some? ==> t.value.id in stored && stored[t.value.id] == t.value && t.value.date == today)
      && (t.Some? ==> forall k :: k in stored && stored[k].date == today ==> k == t.value.id || Keys.Less(t.value.id, k))
  {
    var stored := w.host.disk.schedules;
    var p := (x: ScheduledOutfit) => x.date == today;
    assert TodayOutfit(w.session, today) == Find(GetAll(stored), p) && KeyedBy(stored, ScheduleKey) by {
      ReadyMeansSynced(w);
    }
    FindInListing(stored, ScheduleKey, p);
  }

  /** Scheduling twice under two new ids keeps both plans: the list grows by two. */
  lemma ScheduleTwiceKeepsBoth(w: World, hostOk: bool,
                               o1: OutfitSuggestion, d1: string, id1: string, t1: int,
                               o2: OutfitSuggestion, d2: string, id2: string, t2: int)
    requires Inv(w) && w.session.phase == Ready
    requires id1 != id2 && id1 !in w.host.disk.schedules && id2 !in w.host.disk.schedules
    ensures var r := HandleScheduleOutfit(HandleScheduleOutfit(w, hostOk, o1, d1, id1, t1), hostOk, o2, d2, id2, t2);
      && |r.session.scheduled| == |w.session.scheduled| + 2
      && ScheduledOutfit(id1, o1, d1, t1) in r.session.scheduled
      && ScheduledOutfit(id2, o2, d2, t2) in r.session.scheduled
  {
    ReadyMeansSynced(w);
    var s1 := ScheduledOutfit(id1, o1, d1, t1);
    var s2 := ScheduledOutfit(id2, o2, d2, t2);
    var w1 := HandleScheduleOutfit(w, hostOk, o1, d1, id1, t1);
    PutThenGetAll(w.host.disk.schedules, ScheduleKey, s1);
    PutThenGetAll(w1.host.disk.schedules, ScheduleKey, s2);
    PutKeepsOthers(w1.host.disk.schedules, ScheduleKey, s2, s1);
  }

  /** A put under a new key lists one record more: the new one and every
      record listed before. */
  lemma PutNewKey<R>(store: map<string, R>, keyOf: R -> string, r: R)
    requires KeyedBy(store, keyOf) && keyOf(r) !in store
    ensures var rs := GetAll(store);
      var rs' := GetAll(Put(store, keyOf, r));
      && r in rs' && |rs'| == |rs| + 1
      && forall i :: 0 <= i < |rs| ==> rs[i] in rs'
  {
    var rs := GetAll(store);
    var rs' := GetAll(Put(store, keyOf, r));
    assert r in rs' && |rs'| == |rs| + 1 by {
      PutThenGetAll(store, keyOf, r);
    }
    PutNewKeyKeeps(store, keyOf, r);
  }

  lemma PutNewKeyKeeps<R>(store: map<string, R>, keyOf: R -> string, r: R)
    requires KeyedBy(store, keyOf) && keyOf(r) !in store
    ensures forall i :: 0 <= i < |GetAll(store)| ==> GetAll(store)[i] in GetAll(Put(store, keyOf, r))
  {
    var rs := GetAll(store);
    forall i | 0 <= i < |rs| ensures rs[i] in GetAll(Put(store, keyOf, r)) {
      var x := rs[i];
      var k :| k in store && store[k] == x;
      PutKeepsOthers(store, keyOf, r, x);
    }
  }

  /** Scheduling under a new id, once loaded, adds that one record: the
      list grows by one and every earlier plan is still listed. */
  lemma ScheduleAddsRecord(w: World, hostOk: bool, outfit: OutfitSuggestion, date: string, newId: string, now: int)
    requires Inv(w) && w.session.phase == Ready
    requires newId !in w.host.disk.schedules
    ensures var r := HandleScheduleOutfit(w, hostOk, outfit, date, newId, now);
      && ScheduledOutfit(newId, outfit, date, now) in r.session.scheduled
      && |r.session.scheduled| == |w.session.scheduled| + 1
      && forall i :: 0 <= i < |w.session.scheduled| ==> w.session.scheduled[i] in r.session.scheduled
  {
    var s := ScheduledOutfit(newId, outfit, date, now);
    var store := w.host.disk.schedules;
    var r := HandleScheduleOutfit(w, hostOk, outfit, date, newId, now);
    assert && r.session.scheduled == GetAll(Put(store, ScheduleKey, s))
           && w.session.scheduled == GetAll(store)
           && KeyedBy(store, ScheduleKey) by {
      ReadyMeansSynced(w);
      assert CanConnect(w.host, hostOk);
    }
    PutNewKey(store, ScheduleKey, s);
  }

  /** Deleting a schedule, once loaded, removes that id and nothing else:
      the new list is the old one without it, in the same order, so other
      plans for the same date stay. */
  lemma DeleteScheduleFilters(w: World, hostOk: bool, id: string)
    requires Inv(w) && w.session.phase == Ready
    ensures var r := HandleDeleteSchedule(w, hostOk, id);
      && r.session.scheduled == Filter(w.session.scheduled, KeyIsNot(ScheduleKey, id))
      && r.session.items == w.session.items
      && r.session.conversations == w.session.conversations
  {
    ReadyMeansSynced(w);
    DeleteThenGetAll(w.host.disk.schedules, ScheduleKey, id);
  }
}
