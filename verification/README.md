# Closet app: local store and session model

A Dafny model of the wardrobe organizer's persistence and state layer. The
model covers:

- the IndexedDB storage service with its three object stores;
- the page shell that mirrors those stores on screen (App.tsx);
- the views whose logic feeds the shell or reads from it:
  - the chat's send flow;
  - the add/edit item dialog;
  - the closet filter;
  - the month calendar;
  - outfit resolution.

Modules, in dependency order:

- `Wrappers`: `Option` and `Result`.
- `Strings`: trim, ASCII lowercasing, substring search, integer printing.
- `Seqs`: `Array.prototype.filter` and `find` with their laws.
- `Sorting`: the descending comparator sort, stable as ECMAScript requires since ES2019.
- `Keys`: the order of string keys, and the sorted key list of a store.
- `ObjectStore`: one object store with an in-line key path, as a `map<string, R>`, with put, delete and getAll.
- `Types`: the records and the three enumerations.
- `Storage`: the database (version, schema, records), the upgrade, the cached connection and the nine service calls.
- `Outfits`: resolving `itemIds` against the closet.
- `Closet`: the closet filter.
- `Calendar`: the calendar, including the JavaScript `Date` arithmetic it relies on.
- `ItemForm`: the item dialog.
- `Chat`: the chat view.
- `App`: the page as a state machine.
  - `World` pairs the storage service (`Host`) with the React state (`Session`).
  - Each handler is a function.
  - `Step` and `Run` drive arbitrary event sequences.
  - `Inv` says every list on screen equals the sorted view of its store once loaded.
- `AppLaws`: what the lists show after each handler.

Modelling choices:

- **Sequential execution.** Every asynchronous call is one atomic step, and each handler runs to completion before the next event.
- **Connection outcome.** Whether the host grants a connection is a boolean parameter, `hostOk`.
- **Inputs.** Clocks, fresh ids, the confirm and prompt answers, the photo analysis and the advice reply are parameters. The analysis and the advice are `Option` values; `None` is a failed call.
- **getAll order.** `getAll` lists records in ascending key order, as the "compare two keys" algorithm of the W3C Indexed Database API 3.0 orders string keys: element by element, with a proper prefix first. A string here is a sequence of Unicode scalar values rather than UTF-16 code units; the two agree on text in the Basic Multilingual Plane.
- **Display sort.** The page's descending `sort` is a stable insertion sort, so ties keep store order.
- **JavaScript falsiness.** `||` and falsy values are modelled exactly:
  - an edited item with id `""` or `createdAt` 0 gets fresh values;
  - an empty `textOverride` falls back to the input box;
  - an empty reply text becomes the apology.
- **Date constructor.** The Date constructor reads years 0 to 99 as 1900 + y; `JsYear` models this. Month and day overflow is normalised with Euclidean `/` and `%`, which agree with the floor arithmetic of ECMAScript dates because every divisor is positive.

Facts about the code that shape the model:

- **No conversation delete.** services/storage.ts has no delete for the conversations store, so none is modelled.
- **Failed advice call.** When the advice call throws (components/ChatView.tsx:92-93), no assistant message is stored at all. The fixed apology is used only when the reply's text is empty.
- **Storage errors.** The service rejects only when the database cannot be opened (services/storage.ts:37), so every storage error is a single `OpenFailed`. A database stored at a later version refuses the open.
- **Initial load runs once.** It decides the selection from the stored conversations alone. Its "no selection yet" test reads the value captured at the first render, which is always null.

## Model

| member | source | states |
|---|---|---|
| Types.Categories | types.ts:48 | CATEGORIES has 9 entries, every Category value appears, no value twice |
| Types.Occasions | types.ts:49 | OCCASIONS has 8 entries covering every Occasion once |
| Types.Seasons | types.ts:50 | SEASONS has 5 entries covering every Season once |
| Strings.TrimEmptyIffBlank | components/ChatView.tsx:46 | `query.trim()` is empty exactly when every character of the query is whitespace |
| Strings.LowerIdempotent | components/ClosetView.tsx:19-21 | lowercasing a lowercased string changes nothing |
| Strings.IntToStringInjective | components/CalendarView.tsx:34 | distinct years print as distinct decimal strings |
| Strings.TwoDigits | components/CalendarView.tsx:34 | `padStart(2, '0')` of a number below 100 is its tens digit then its units digit |
| Sorting.SortDesc | App.tsx:27-28 | the sorted list is non-increasing in the key and a permutation (same multiset) of its input |
| Sorting.SortStable | App.tsx:27-28 | among elements with equal keys the sort keeps the input order |
| Sorting.HeadIsMax | App.tsx:33 | the head of the sorted list is an input element with the greatest key |
| Keys.SortedKeys | services/storage.ts:50 | the key list getAll walks holds each key of the store once, in strictly ascending key order (element by element, a proper prefix first) |
| Keys.AscendingUnique | services/storage.ts:50 | two ascending key lists with the same members are equal, so the listing order is determined by the key set |
| ObjectStore.Put | services/storage.ts:44 | put stores the record under its own key, replaces any record with that key, keeps every other key, and keeps the store keyed |
| ObjectStore.Delete | services/storage.ts:57 | delete removes exactly the key, keeps the other records, and leaves a store without the key unchanged, so a second delete is a no-op |
| ObjectStore.GetAll | services/storage.ts:50 | getAll lists as many records as the store holds, only stored records, and every stored record (an empty store gives the empty list) |
| ObjectStore.GetAllOrdered | services/storage.ts:50 | the listing of a keyed store is in strictly ascending key order and each listed record is the one stored under its key |
| ObjectStore.GetAllOnePerKey | services/storage.ts:50 | no two listed records share a key |
| ObjectStore.PutThenGetAll | services/storage.ts:41-53 | after a put the listing holds the record as the only one with its key; the count grows by one exactly when the key was new |
| ObjectStore.PutKeepsOthers | services/storage.ts:41-53 | a put leaves every record with another key listed |
| ObjectStore.DeleteThenGetAll | services/storage.ts:47-58 | the listing after delete(key) is the listing before it with the records under that key filtered out, order kept |
| ObjectStore.FilterKeepsAscending | services/storage.ts:50 | filtering a key-ordered listing keeps it key-ordered |
| Storage.CreateIfMissing | services/storage.ts:21-29 | creating a store adds it to the schema empty; an existing store is left untouched |
| Storage.Upgrade | services/storage.ts:19-30 | after the upgrade the version is 2 and all three stores exist; stores that existed keep their records |
| Storage.UpgradeIdempotent | services/storage.ts:19-30 | running the upgrade twice gives the same database as once |
| Storage.Open | services/storage.ts:16-38 | opening succeeds exactly when the host allows it and the stored version is not above 2; an older database is upgraded, a current one is returned unchanged |
| Storage.OpenTwiceIsOpenOnce | services/storage.ts:16-38 | opening an opened database changes nothing more |
| Storage.GetDb | services/storage.ts:13-39 | a cached connection is reused as is; otherwise one open is made and cached, so at most one open happens over the service's life |
| Storage.SaveItem | services/storage.ts:41-45 | saveItem succeeds exactly when a connection can be had; the items store becomes the put of the item, the other two stores are unchanged |
| Storage.GetItems | services/storage.ts:47-53 | getItems returns the items store's listing and changes no records |
| Storage.DeleteItem | services/storage.ts:55-58 | deleteItem deletes the id from the items store only; schedules are not touched |
| Storage.SaveConversation | services/storage.ts:60-63 | saveConversation puts into the conversations store only |
| Storage.GetConversations | services/storage.ts:65-71 | getConversations returns the conversations store's listing and changes no records |
| Storage.SaveScheduledOutfit | services/storage.ts:73-76 | saveScheduledOutfit puts into the schedule store only |
| Storage.GetScheduledOutfits | services/storage.ts:78-84 | getScheduledOutfits returns the schedule store's listing and changes no records |
| Storage.DeleteScheduledOutfit | services/storage.ts:86-89 | deleteScheduledOutfit deletes from the schedule store only |
| Outfits.FindItem | components/OutfitDisplay.tsx:18 | `closet.find` by id: none exactly when no item has the id, otherwise the first item with it |
| Outfits.ResolveItems | components/OutfitDisplay.tsx:18 | the resolved pieces' ids are exactly the resolvable ids in itemIds order, and each piece is the first closet match of its id |
| Outfits.ResolveItemsBounds | components/OutfitDisplay.tsx:18 | at most one piece per id, every piece is a closet item, and when every id resolves the pieces' ids are itemIds exactly |
| Outfits.ShowsPlaceholder | components/OutfitDisplay.tsx:38-42 | "No items available" shows exactly when no id of the outfit resolves |
| Outfits.ShownPieces | components/CalendarView.tsx:137-141 | at most four pieces show, a prefix of the resolved pieces, and all of them when there are at most four |
| Outfits.OverflowBadge | components/CalendarView.tsx:142-146 | the "+n" badge appears exactly when more than four pieces resolve, and shown plus n is the piece count |
| Outfits.ResolveAfterRemoval | components/CalendarView.tsx:123 | removing one item from the closet removes exactly that item's pieces from any resolved outfit, leaving the rest in order |
| Closet.FilteredItems | components/ClosetView.tsx:18-27 | the shown items are an order-preserving subsequence of the closet, and an item shows exactly when search, category and occasion all match, and every shown item keeps its number of copies |
| Closet.NoFilterShowsAll | components/ClosetView.tsx:18-27 | an empty search with both chips on "all" shows the whole closet |
| Closet.SearchIgnoresCase | components/ClosetView.tsx:19-21 | searching for a query or for its lowercase shows the same items |
| Closet.CategoryNarrows | components/ClosetView.tsx:23 | picking a category shows the "all" view's items of that category, in the same order |
| Calendar.MonthLength | components/CalendarView.tsx:15 | every month has 28 to 31 days |
| Calendar.DaysInMonth | components/CalendarView.tsx:15 | day 0 of the next month is the last day of this one: the month's length, after month overflow is normalised |
| Calendar.DaysInYear | components/CalendarView.tsx:15 | the Date day count advances 366 days over a Gregorian leap year and 365 over any other year |
| Calendar.DaysInMonthSpan | components/CalendarView.tsx:15-16 | the first of the next month is exactly daysInMonth days after the first of this month |
| Calendar.FebruaryFollowsLeapRule | components/CalendarView.tsx:15 | February has 29 days exactly in Gregorian leap years and 28 otherwise |
| Calendar.StartDayOfMonth | components/CalendarView.tsx:16 | the weekday of the first is in 0..6 |
| Calendar.NextStartDay | components/CalendarView.tsx:16 | next month's first weekday is this month's shifted by its length, modulo 7 |
| Calendar.Normalize | components/CalendarView.tsx:23-24 | a month index out of 0..11 rolls into the neighbouring years without changing the absolute month |
| Calendar.PrevMonth | components/CalendarView.tsx:23 | going back moves to the previous month; January goes to December of the year before |
| Calendar.NextMonth | components/CalendarView.tsx:24 | going forward moves to the next month; December goes to January of the next year |
| Calendar.MonthNavigationRoundTrip | components/CalendarView.tsx:23-24 | forward then back, or back then forward, returns to the same year and month |
| Calendar.Grid | components/CalendarView.tsx:66-70 | the grid is startDay blank cells followed by the days 1..numDays |
| Calendar.GridColumnIsWeekDay | components/CalendarView.tsx:60-70 | day d lands in the grid's column for its own weekday |
| Calendar.DateKey | components/CalendarView.tsx:34 | the key is the year, a dash, two month digits, a dash and two day digits |
| Calendar.DateKeyParts | components/CalendarView.tsx:34 | the month part is the two digits of month + 1 and the day part the two digits of the day |
| Calendar.DateKeyInjective | components/CalendarView.tsx:34 | different calendar days have different keys |
| Calendar.ScheduledForDate | components/CalendarView.tsx:33-36 | a day's plans are exactly the schedules filed under its key, in stored order, each with as many copies as the list holds |
| Calendar.HasEvent | components/CalendarView.tsx:72 | a day carries the dot exactly when some schedule is filed under it |
| Calendar.DifferentDaysDisjoint | components/CalendarView.tsx:33-36 | two different days of a month list no plan in common |
| Calendar.ActiveSchedules | components/CalendarView.tsx:38-39 | the planned-looks panel lists the selected day's schedules, and nothing when no day is selected |
| ItemForm.InitialForm | components/AddItemModal.tsx:15-22 | a new item opens as an empty blank shirt form (no photo, colours, occasions or seasons, empty text fields); an edited item opens with its own fields, and an absent brand, size or purchase date opens as the empty string |
| ItemForm.Toggle | components/AddItemModal.tsx:53-59 | an unselected value is appended at the end (`[...prev, v]`); a selected one is removed with every copy, the others keeping their order (a subsequence of the old list); nothing new but the value appears; a list without duplicates stays without |
| ItemForm.ToggleTwice | components/AddItemModal.tsx:53-59 | selecting and then deselecting an unselected value gives back the original list |
| ItemForm.RemoveAt | components/AddItemModal.tsx:169 | removing colour i deletes exactly that element and keeps the others in order; an index out of range changes nothing |
| ItemForm.AddColor | components/AddItemModal.tsx:176-179 | a colour is appended exactly when the prompt returns a non-empty string, and the appended colour is that string; the existing colours are kept in front |
| ItemForm.ChoosePhoto | components/AddItemModal.tsx:27-51 | the photo is replaced; a successful analysis sets category and colours, a failed one leaves every other field as it was |
| ItemForm.Submit | components/AddItemModal.tsx:61-78 | no item without a photo; otherwise an item that reopens as the same form, keeping the edited item's id and creation time when truthy; a new item, an empty id or a zero creation time gets the fresh id or the current time |
| ItemForm.EditUnchangedRoundTrip | components/AddItemModal.tsx:15-22 | opening an item that has a photo, an id, a creation time, a brand, a size and a purchase date, and saving it untouched, gives the same item back |
| ItemForm.EditFillsAbsentBrand | components/AddItemModal.tsx:20 | an absent brand comes back from an untouched edit as the empty string |
| Chat.ActiveConversation | components/ChatView.tsx:36 | the active conversation is a listed one whose id is the selected id; none exactly when no id is selected or none matches |
| Chat.ActiveIsOnlyMatch | components/ChatView.tsx:36 | when a conversation is the only one listed under its id, selecting that id shows it |
| Chat.Query | components/ChatView.tsx:45 | `textOverride || input`: a non-empty override is the query, and otherwise (absent or empty) the input box is |
| Chat.Title | components/ChatView.tsx:59 | a new conversation's title is the first min(30, length) characters of the query |
| Chat.UserTurn | components/ChatView.tsx:55-70 | the active conversation keeps its id and title and gains the user message; with none, a new conversation titled by the query holds only it; either way lastUpdatedAt becomes the send's clock reading |
| Chat.HandleSend | components/ChatView.tsx:44-97 | a blank query or a pending reply changes nothing; otherwise the input clears, one save is made, and a second save follows only when the reply arrives; a selection is made exactly when no conversation was active |
| Chat.SendAppendsTurn | components/ChatView.tsx:64-91 | every save of a send to an active conversation keeps its id, title and history; the first adds the user message, the second the assistant's |
| Chat.SendLastSave | components/ChatView.tsx:55-91 | the last save is the conversation with the whole turn (query, then the reply if any) appended, stamped with the reply's clock reading when a reply came and the user turn's otherwise |
| Chat.SendStartsConversation | components/ChatView.tsx:56-63 | with none active, the send selects a new id, titles it by a prefix of the query, and its first message is the query |
| Chat.ReplyNeverEmpty | components/ChatView.tsx:82 | the assistant message is the reply text, or the apology when that text is empty, so it is never empty |
| Chat.PickOutfit | components/ChatView.tsx:247 | an outfit card's schedule action opens the dialog on that very outfit, and confirming asks for exactly it on the chosen date |
| Chat.ConfirmSchedule | components/ChatView.tsx:104-109 | confirming does nothing without a chosen outfit; with one it requests that outfit on the chosen date and closes the dialog |
| App.ReadAll | App.tsx:24-26 | the three reads succeed exactly when a connection can be had and return the three stores' listings |
| App.LoadData | App.tsx:22-37 | the load shows items newest first, conversations most recently updated first and schedules in store order; it selects the head conversation when there is one; a failed load changes no list |
| App.LoadSelectsLatest | App.tsx:31-34 | with at least one stored conversation the load selects one whose lastUpdatedAt is at least every other's |
| App.LoadSelectsHead | App.tsx:27-34 | the selection is the first of the conversations as shown |
| App.ReadyMeansSynced | App.tsx:22-37 | once loaded, every list on screen is its store's sorted view |
| App.HandleSaveItem | App.tsx:39-45 | a successful save puts the item, reloads the items list from the store and closes the dialog; the other stores and lists are untouched; a refused save changes nothing |
| App.HandleDeleteItem | App.tsx:47-53 | without confirmation nothing happens; with it the item is deleted and the list reloaded, other stores untouched |
| App.HandleSaveConversation | App.tsx:60-65 | the conversation is put, the list reloaded, and its id becomes the active one |
| App.HandleScheduleOutfit | App.tsx:67-78 | a new record with the fresh id, the outfit by value, the date and the time is put and the schedule list reloaded |
| App.HandleDeleteSchedule | App.tsx:80-84 | the schedule is deleted and the list reloaded; items and conversations untouched |
| App.OpenAdd | App.tsx:93 | the add button opens the dialog, on a new item when it was closed, changing nothing else |
| App.EditItem | App.tsx:55-58 | editing opens the dialog on that item, changing nothing else |
| App.CloseModal | App.tsx:125-128 | closing dismisses the dialog and forgets the edited item, changing nothing else |
| App.SubmitItem | App.tsx:123-131 | a submit without a photo does nothing; otherwise the item the form builds goes through the save handler |
| App.SaveConversations | App.tsx:60-65 | handing a send's conversations to the save handler in order keeps every list equal to its store |
| App.Send | components/ChatView.tsx:44-97 | a send keeps every list equal to its store, and a blank query changes nothing |
| App.SelectConversation | components/ChatView.tsx:308-311 | picking a history entry selects its id and nothing else; a listed id then shows its conversation |
| App.ConfirmSchedule | components/ChatView.tsx:104-109 | the dialog's confirm always leaves the dialog closed and the lists equal to their stores; without a chosen outfit nothing happens; once loaded, confirming with an outfit lists the new schedule record (the new id, the outfit, the chosen date, the time) |
| App.TodayOutfit | App.tsx:86-87 | the reminder is a listed schedule filed under today; none exactly when no listed schedule is |
| App.StepPreservesInv | App.tsx:22-84 | every event keeps each list on screen equal to its store once loaded |
| App.RunPreservesInv | App.tsx:22-84 | any sequence of events keeps that invariant |
| App.InitialInv | App.tsx:13-19 | the first render over a valid database satisfies the invariant |
| AppLaws.SortedPutView | App.tsx:39-45 | after put(r) the sorted listing is the upsert of r into the one before: r is listed as the only record with its key, other records stay, nothing else appears, the count grows only for a new key |
| AppLaws.SaveItemUpserts | App.tsx:39-45 | saving an item once loaded upserts it into the items list by id, keeps the list newest first, and leaves the other lists alone |
| AppLaws.ItemListingAfterDelete | App.tsx:47-53 | after delete(id) the items list holds exactly the earlier items whose id differs |
| AppLaws.DeleteItemNoCascade | App.tsx:47-53 | deleting an item removes just it from the list, keeps every schedule as stored, and each planned outfit then resolves to its old pieces minus the deleted item |
| AppLaws.ScheduleResolvesAfterDelete | components/CalendarView.tsx:123 | after an item delete every schedule resolves against the new list to the old resolution without the deleted item |
| AppLaws.ItemIdsDetermine | App.tsx:41-42 | in the reloaded items list an id names one item |
| AppLaws.SaveConversationActivates | App.tsx:60-65 | after saving a conversation, the active conversation is exactly the saved one |
| AppLaws.ListedAfterPutIsActive | components/ChatView.tsx:36 | looking up a just-saved conversation's id in the reloaded list finds it as saved |
| AppLaws.LatestPutHeadsList | App.tsx:62-63 | a record put with a sort key above every other stored record's is the head of the descending listing |
| AppLaws.SavedLatestIsFirst | App.tsx:60-65 | once loaded, saving a conversation stamped later than every other stored one puts it first in the history list, as a send's clock reading does |
| AppLaws.SaveConversationsActivatesLast | App.tsx:60-65 | after several saves in a row the last saved conversation is active |
| AppLaws.SendActivatesLastSave | components/ChatView.tsx:72-91 | after a send the conversation of its last save is the active one |
| AppLaws.SendRecordsTurn | components/ChatView.tsx:44-97 | after a send the active conversation is the one it went to, with id, title and history kept and the turn appended, or a new one holding only the turn |
| AppLaws.FindInListing | App.tsx:87 | `find` over a store's listing returns the record with the least key among those that match, and none exactly when none match |
| AppLaws.TodayOutfitLeastId | App.tsx:86-87 | today's outfit is the stored schedule for today with the least id, present exactly when some schedule is for today |
| AppLaws.ScheduleAddsRecord | App.tsx:67-76 | scheduling under a new id adds that record with the outfit embedded by value, grows the list by one and keeps every earlier plan |
| AppLaws.ScheduleTwiceKeepsBoth | App.tsx:67-76 | scheduling twice under two new ids lists both plans and grows the list by two |
| AppLaws.DeleteScheduleFilters | App.tsx:80-84 | deleting a schedule leaves the list with exactly that id filtered out, others (same date included) kept in order, other lists unchanged |

## Left out

- Transactions and asynchrony: each service call is one atomic step. The writes' missing `oncomplete` wait, the reads' missing `onerror` (a failed read would hang) and the interleaving of awaited handlers are not modelled. In particular, the chat's reply arriving while another event runs is not modelled, so `App.Send` hands both saves over at once with the loading flag clear.
- Version conflicts: there is no `onblocked` handling and no distinction between error kinds; one `OpenFailed` covers every refused open.
- services/gemini.ts: the advice and image-analysis calls are network clients over the generative-AI SDK. They are opaque inputs (`Option` values). The category an analysis returns is taken to be a valid `Category`, as the type declares; the code does not check it.
- components/Layout.tsx and all presentation: tabs, JSX, classes, scrolling and the tile-span layout.
- Browser dialogs: the `confirm` answer and the `prompt` answer are parameters; the `alert` after scheduling has no effect on state.
- `generateId`, `formatDate` and `compressImage` (utils) are not part of this model; fresh ids, clock readings and compressed photos are parameters.
- Time zones: the today key (UTC in App.tsx, local in the calendar) and the local date triple for `isToday` are inputs. Calendar.IsToday compares that triple with the grid day and carries no further contract.
- Unicode: lowercasing is ASCII only, with no case folding beyond A–Z.
- Keys.Less: strings are sequences of Unicode scalar values, not UTF-16 code units. For characters outside the Basic Multilingual Plane the key order differs from IndexedDB's: a character from U+10000 up sorts after U+E000..U+FFFF here, and before them in UTF-16.
- Chat.Title: it keeps 30 scalar values, where `substring(0, 30)` keeps 30 UTF-16 code units. A title with characters outside the Basic Multilingual Plane is longer here, and the model never splits a surrogate pair.
- Calendar.MonthNavigationRoundTrip: stated only for years outside -1..100, because the Date constructor reads years 0 to 99 as 1900 + y, so navigating from 100 back to 99, or from -1 forward to 0, does not return.
- ItemForm.ToggleOccasion and ItemForm.ToggleSeason apply `Toggle` to one field and carry no contract of their own; `Toggle` states the behaviour.
- The favourite button (`onFavorite`) is a no-op in the chat and is not modelled.
- The suggestion chips send a fixed text through the same `Chat.HandleSend` as the input box (as `textOverride`); their texts are not listed.
