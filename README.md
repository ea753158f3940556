# Smart Campus Helper: a Dafny model of its four interactive components

This project models the logic of the campus portal's four interactive React
components and proves properties of that logic.

- **Chat widget** (`Chat`, built on `Text`). A keyword responder scans an
  ordered table of twelve canned answers. It lower-cases the user's text and
  returns the answer of the first key that occurs in the text, or a fallback
  apology. Beside it sits the conversation log that the send handler extends:
  - it opens with one greeting;
  - a blank input (after trimming) is ignored;
  - an accepted input is appended as a user message;
  - a typing-delay timer later appends the bot's reply to that input.
- **News and events** (`NewsEvents`). The module-level list of six
  announcements is sorted in place:
  - newest date first, and within one date by priority (high, medium, low);
  - the sort is stable, as JavaScript's `Array.prototype.sort` is;
  - each item is marked upcoming or past against the current instant;
  - a switch maps each priority to a colour class.
- **Admin panel** (`Admin`). The mock store has:
  - a login gate with one hard-coded credential pair;
  - a list of FAQs and a list of news records;
  - two draft forms whose add handlers check their required fields;
  - delete handlers that filter a list by id.
- **Campus map** (`CampusMap`). A fixed table of eight facilities, placed by
  percentage coordinates. Two switches give each facility type its marker
  colour and display label. One piece of state holds the facility whose
  details dialog is open.

Some choices in how the model represents the code:

- **Imperative parts.** The news list is sorted in place, and the admin,
  chat and map components hold mutable state.
  - `NewsEvents.SortNews` is an in-place array method. It is proved equal to
    a stable insertion-sort function, `Sort`. `Sort` is proved sorted, a
    permutation, stable (`SortStable`) and idempotent.
  - The component states are classes whose methods state their entire new
    state.
- **The responder.** It is a loop method, `GetBotResponse`, proved against
  the first-match function `FirstMatch`/`Answer`.
  - The chat session takes its keyword table as a constructor argument. The
    widget's table is `Chat.FaqResponses`.
  - The widget's table is written as two parallel lists, the keys
    (`FaqKeys`) and the answers (`FaqAnswers`), paired up in declaration
    order. The properties of the widget's own responder are stated through
    `BotResponse`, which is `Answer(FaqResponses, ·)`.
- **Timers.** The one-second typing delay of the send handler is modelled as
  two steps:
  - `SendMessage` appends the user's message and queues the captured input;
  - `DeliverReply` is the timer firing and appends the reply to the oldest
    queued input.

  All these timers have the same delay, so they fire in the order they were
  set. The class invariant says that the bot's messages are the greeting
  followed by the replies to the user's messages, in order, except for the
  ones still queued.
- **Dates.** A date string `"YYYY-MM-DD"` is a day number counted from
  1970-01-01. `new Date` reads such a string as UTC midnight, so its instant
  is `day * 86400000` ms, and the current instant is a parameter.
- **`isUpcoming` compares instants, not calendar dates.** It compares the
  instant of the item's UTC midnight with the current instant. So an item
  dated on the current UTC day counts as upcoming only at that day's UTC
  midnight (`NewsEvents.UpcomingByDay`).
- **`getBotResponse` on an input that mentions both "hostel" and
  "canteen"** returns the answer of the first key that occurs. That is the
  hostel answer only when none of the five keys declared before "hostel"
  occurs. For example, "campus facilities hostel canteen" gets the
  campus-facilities answer. `Chat.HostelPrecedesCanteen` states what holds
  for every such input:
  - it never gets the canteen answer;
  - it gets the hostel answer when none of the earlier keys occurs.

## Model

| member | source | states |
|---|---|---|
| `Text.Lower` | src/components/ChatBot.tsx:71 | `toLowerCase` on ASCII text: each upper-case letter becomes its lower-case form and every other character is kept. Its properties are `LowerIsLowerCase`, `LowerOfLowerCase` and `LowerIdempotent`. |
| `Text.LowerIsLowerCase` | src/components/ChatBot.tsx:71 | Lower-casing keeps the length, and the result has no upper-case letter. |
| `Text.LowerOfLowerCase` | src/components/ChatBot.tsx:74 | `toLowerCase` leaves text that has no upper-case letter unchanged, so lower-case keys compare as written. |
| `Text.LowerIdempotent` | src/components/ChatBot.tsx:71 | Lower-casing twice gives the same text as lower-casing once. |
| `Text.ContainsInEmpty` | src/components/ChatBot.tsx:74 | `"".includes(k)` holds exactly when `k` is empty. |
| `Text.FirstCharAbsent` | src/components/ChatBot.tsx:74 | A key whose first character does not appear in the text does not occur in it. |
| `Text.PairAbsent` | src/components/ChatBot.tsx:74 | A key whose first two characters never stand side by side in the text does not occur in it. |
| `Text.Contains` | src/components/ChatBot.tsx:74 | `s.includes(k)`: `k` occurs in `s` at some position. `ContainsInEmpty`, `FirstCharAbsent` and `PairAbsent` prove its properties. |
| `Text.TrimStart` | src/components/ChatBot.tsx:83 | The result is the suffix left after a whitespace-only prefix, and it does not start with whitespace. |
| `Text.TrimEnd` | src/components/ChatBot.tsx:83 | The result is the prefix left before a whitespace-only suffix, and it does not end with whitespace. |
| `Text.TrimEmptyIffBlank` | src/components/ChatBot.tsx:83 | `trim()` gives `""` exactly when every character is ECMAScript whitespace, in both directions. |
| `Text.Trim` | src/components/ChatBot.tsx:83 | `trim()`: leading whitespace dropped (`TrimStart`), then trailing whitespace (`TrimEnd`). `TrimEmptyIffBlank` shows it is empty exactly for blank text. |
| `Chat.FirstMatch` | src/components/ChatBot.tsx:73-77 | A found index is in range, its key occurs in the text, and no earlier key occurs. None is returned exactly when no key occurs. |
| `Chat.Answer` | src/components/ChatBot.tsx:70-80 | The reply is either the fallback or one of the table's answers. |
| `Chat.GetBotResponse` | src/components/ChatBot.tsx:70-80 | The loop with its early return yields the answer of the first key that occurs in the lower-cased input, or else the fallback. |
| `Chat.FirstMatchIff` | src/components/ChatBot.tsx:73-77 | For lower-case keys, key `k` is chosen exactly when it occurs and no earlier key occurs, in both directions. |
| `Chat.FaqKeysLowerCase` | src/components/ChatBot.tsx:21-34 | Every key of the widget's table is already lower case. |
| `Chat.FaqAnswersDistinct` | src/components/ChatBot.tsx:21-34 | The twelve answers are pairwise different, and none of them is the fallback. |
| `Chat.FaqTableKeys` | src/components/ChatBot.tsx:21-34 | The widget's table holds the twelve keys and their answers in declaration order. |
| `Chat.BotResponse` | src/components/ChatBot.tsx:70-80 | `getBotResponse` on the widget's own table: the `Answer` of `FaqResponses` for the lower-cased input. `ReplyOfChoice`, `ReplyIsKnown`, `ReplyIsFirstMatch`, `FallbackIffNoKey` and `CaseInsensitive` prove its properties. |
| `Chat.ReplyOfChoice` | src/components/ChatBot.tsx:70-80 | The widget's reply is the answer of the key the matcher chooses, or the fallback when it chooses none. |
| `Chat.ReplyIsKnown` | src/components/ChatBot.tsx:70-80 | The widget's reply is always the fallback or one of its twelve answers. |
| `Chat.ReplyIsFirstMatch` | src/components/ChatBot.tsx:73-77 | The reply is answer `k` exactly when key `k` occurs in the lower-cased input and no earlier key does: declaration order decides. |
| `Chat.ChosenIsFirstMatch` | src/components/ChatBot.tsx:73-77 | The matcher chooses key `k` exactly when key `k` occurs in the lower-cased input and no earlier key does. |
| `Chat.FallbackIffNoKey` | src/components/ChatBot.tsx:73-79 | The reply is the fallback exactly when none of the twelve keys occurs in the lower-cased input. |
| `Chat.ShortInputGetsFallback` | src/components/ChatBot.tsx:79 | Every input shorter than the shortest key ("fees"), the empty input included, gets the fallback. |
| `Chat.CaseInsensitive` | src/components/ChatBot.tsx:71 | An input and its lower-cased form get the same reply. |
| `Chat.ClassTimingsAnswered` | src/components/ChatBot.tsx:22 | An input mentioning "class timings" in any letter case gets the class-timings answer, because that key comes first. |
| `Chat.HostelPrecedesCanteen` | src/components/ChatBot.tsx:27-28 | An input mentioning "hostel" never gets the canteen answer. When none of the five earlier keys occurs, it gets the hostel answer. |
| `Chat.OwnKeyChosen` | src/components/ChatBot.tsx:73-77 | Text that, lower-cased, equals key `k` and contains no earlier key chooses key `k`. |
| `Chat.AskClassTimings` | src/components/ChatBot.tsx:37 | The quick question "Class timings" is key 0 lower-cased, and it chooses key 0. |
| `Chat.AskExamSchedule` | src/components/ChatBot.tsx:38 | The quick question "Exam schedule" is key 1 lower-cased, and it chooses key 1. |
| `Chat.AskCampusFacilities` | src/components/ChatBot.tsx:39 | The quick question "Campus facilities" is key 3 lower-cased, and it chooses key 3. |
| `Chat.AskLibraryHours` | src/components/ChatBot.tsx:40 | The quick question "Library hours" is key 4 lower-cased, and it chooses key 4. |
| `Chat.AskWhatsNew` | src/components/ChatBot.tsx:41 | The quick question "What's new" is key 11 lower-cased, and it chooses key 11. |
| `Chat.QuickQuestionsChosen` | src/components/ChatBot.tsx:36-42 | Every quick question, lower-cased, is one of the keys, and the matcher chooses that key. |
| `Chat.QuickQuestionsAnswered` | src/components/ChatBot.tsx:36-42 | Every quick question gets the answer of its own lower-cased text, which is not the fallback. |
| `Chat.UnknownTopicGetsFallback` | src/components/ChatBot.tsx:79 | An off-topic question ("quantum entanglement") gets the fallback. |
| `Chat.NoKeyInUnknownTopic` | src/components/ChatBot.tsx:21-34 | None of the twelve keys occurs in "quantum entanglement". |
| `Chat.TextsAppend` | src/components/ChatBot.tsx:92 | Appending a message extends the user texts or the bot texts of the log by its text, according to its sender. |
| `Chat.AnsweredAfterSend` | src/components/ChatBot.tsx:85-94 | Appending a user message keeps the log answered in order, with the new input pending. |
| `Chat.AnsweredAfterReply` | src/components/ChatBot.tsx:97-108 | Appending the answer to the oldest pending input keeps the log answered in order. |
| `Chat.ChatSession.constructor` | src/components/ChatBot.tsx:45-54 | The log holds exactly the greeting message, the input is empty, the bot is not typing, and nothing is pending. |
| `Chat.ChatSession.SetInput` | src/components/ChatBot.tsx:214 | Only the input text changes. |
| `Chat.ChatSession.SendMessage` | src/components/ChatBot.tsx:82-96 | A send is accepted exactly when the trimmed input is non-empty. A rejected send changes nothing. An accepted one appends the user message with the untrimmed text, clears the input, sets typing and queues the input. Earlier messages are untouched, and the log stays answered in order. |
| `Chat.ChatSession.DeliverReply` | src/components/ChatBot.tsx:97-108 | Appends a bot message holding the answer to the oldest queued input, clears typing, and leaves the input box and earlier messages as they were. |
| `NewsEvents.Compare` | src/components/NewsEvents.tsx:98-107 | The comparator: the difference of the dates' instants, newer first, and on equal instants the difference of the priority ranks, higher first. `CompareAntisymmetric`, `CompareZeroIff`, `CompareNegativeIff` and `InOrderIff` prove its properties. |
| `NewsEvents.CompareAntisymmetric` | src/components/NewsEvents.tsx:98-107 | Swapping the arguments negates the comparator. |
| `NewsEvents.CompareZeroIff` | src/components/NewsEvents.tsx:98-107 | Two items compare equal exactly when they share date and priority. |
| `NewsEvents.CompareNegativeIff` | src/components/NewsEvents.tsx:98-107 | `a` sorts before `b` exactly when it is newer, or as new and more urgent. |
| `NewsEvents.InOrderIff` | src/components/NewsEvents.tsx:98-107 | "May stand before" is exactly "the comparator is not positive". |
| `NewsEvents.InOrderTransitive` | src/components/NewsEvents.tsx:98-107 | The comparator's order is transitive. |
| `NewsEvents.InOrderTotal` | src/components/NewsEvents.tsx:98-107 | Any two items are related one way or the other. |
| `NewsEvents.SortedMeaning` | src/components/NewsEvents.tsx:98-107 | In a sorted list an earlier item is at least as new, and on the same date at least as urgent. |
| `NewsEvents.Insert` | src/components/NewsEvents.tsx:98-107 | One insertion step of the stable sort: `x` goes behind the last item that may precede it, and behind every item it ties with. `InsertPermutes`, `InsertSorted`, `InsertAt` and `InsertTied` prove its properties. |
| `NewsEvents.Sort` | src/components/NewsEvents.tsx:98 | The result of `newsItems.sort`: the stable insertion sort under the comparator. `SortSorted`, `SortPermutes`, `SortStable`, `SortOfSorted` and `SortIdempotent` prove its properties, and `SortNews` computes it in place. |
| `NewsEvents.InsertPermutes` | src/components/NewsEvents.tsx:98-107 | Insertion adds exactly the inserted item to the multiset. |
| `NewsEvents.InsertSorted` | src/components/NewsEvents.tsx:98-107 | Inserting into a sorted list keeps it sorted and adds one item. |
| `NewsEvents.SortSorted` | src/components/NewsEvents.tsx:98-107 | The sorted list is ordered by the comparator and as long as the input. |
| `NewsEvents.SortPermutes` | src/components/NewsEvents.tsx:98-107 | Sorting is a permutation. |
| `NewsEvents.InsertTied` | src/components/NewsEvents.tsx:98-107 | Among the items with one date and one priority, insertion keeps the old order and puts `x` last. |
| `NewsEvents.SortStable` | src/components/NewsEvents.tsx:98-107 | Stability: the items with one given date and priority (those the comparator ties) appear in the sorted list in their input order. |
| `NewsEvents.SortedPrefix` | src/components/NewsEvents.tsx:98-107 | Every prefix of a sorted list is sorted. |
| `NewsEvents.SortOfSorted` | src/components/NewsEvents.tsx:98-107 | An already sorted list is left exactly as it is, so equal items keep their order. |
| `NewsEvents.SortIdempotent` | src/components/NewsEvents.tsx:98-107 | Sorting twice is sorting once. |
| `NewsEvents.InsertAt` | src/components/NewsEvents.tsx:98-107 | Insertion places the item right after the last earlier item that may precede it and before the items that must follow it. |
| `NewsEvents.ShiftPast` | src/components/NewsEvents.tsx:98-107 | The shift loop moves the items that must follow `x` one place right and stops at `x`'s insertion point, freeing slot `j`. The cells before `j` and after `i` keep their values. |
| `NewsEvents.InsertLast` | src/components/NewsEvents.tsx:98-107 | One insertion step turns the first `i+1` cells into `Insert` of the old prefix with the old `a[i]`, and leaves the rest alone. |
| `NewsEvents.SortStep` | src/components/NewsEvents.tsx:98-107 | Sorting one more element of a prefix is inserting it into the sorted prefix. |
| `NewsEvents.SortNews` | src/components/NewsEvents.tsx:98-107 | The in-place sort leaves the array holding `Sort` of its old contents, which is ordered, a permutation and stable (`SortSorted`, `SortPermutes`, `SortStable`). |
| `NewsEvents.SeedPrefix2` | src/components/NewsEvents.tsx:16-73 | The first two seed items sort as the second, then the first. |
| `NewsEvents.SeedPrefix3` | src/components/NewsEvents.tsx:16-73 | The first three seed items sort as items 2, 1, 3. |
| `NewsEvents.SeedPrefix4` | src/components/NewsEvents.tsx:16-73 | The first four seed items sort as items 2, 1, 3, 4. |
| `NewsEvents.InsertSecond` | src/components/NewsEvents.tsx:98-107 | An item that may follow the first of four but precedes the other three is inserted second. |
| `NewsEvents.InsertFifth` | src/components/NewsEvents.tsx:98-107 | An item that may follow the fourth of five but precedes the fifth is inserted fifth. |
| `NewsEvents.SeedPrefix5` | src/components/NewsEvents.tsx:16-73 | The first five seed items sort as items 2, 5, 1, 3, 4. |
| `NewsEvents.SortSeedShape` | src/components/NewsEvents.tsx:16-73 | Any list with the seed's dates and priorities sorts as positions 2, 5, 1, 3, 6, 4. |
| `NewsEvents.SeedOrder` | src/components/NewsEvents.tsx:16-107 | The seed announcements are displayed in the id order 2, 5, 1, 3, 6, 4. |
| `NewsEvents.RankSeed` | src/components/NewsEvents.tsx:98-107 | Sorting the seed array in place yields ids 2, 5, 1, 3, 6, 4, a sorted permutation of the seed. |
| `NewsEvents.IsUpcoming` | src/components/NewsEvents.tsx:125 | `new Date(item.date) >= new Date()`: the item's UTC-midnight instant is not before the current instant. `UpcomingMonotone` and `UpcomingByDay` prove its properties. |
| `NewsEvents.UpcomingMonotone` | src/components/NewsEvents.tsx:125 | A later-dated item is upcoming whenever an earlier-dated one is. |
| `NewsEvents.UpcomingByDay` | src/components/NewsEvents.tsx:125 | Against the current UTC day (`now / MsPerDay`): a later day is upcoming and an earlier day is not. An item dated on the current UTC day is upcoming exactly when the current instant is that day's UTC midnight. |
| `NewsEvents.PriorityColor` | src/components/NewsEvents.tsx:76-83 | The muted default is returned exactly for strings that are none of "high", "medium" or "low". |
| `NewsEvents.PriorityColorsDistinct` | src/components/NewsEvents.tsx:76-83 | The three priorities get three different non-default colours. |
| `Admin.ValidCredentials` | src/components/AdminPanel.tsx:55 | The mock check: the username is "admin" and the password is "admin123". `AdminStore.Login` succeeds exactly on it. |
| `Admin.FaqDraftComplete` | src/components/AdminPanel.tsx:70 | The FAQ guard: question and answer are both non-empty. `AdminStore.AddFaq` succeeds exactly on it. |
| `Admin.NewsDraftComplete` | src/components/AdminPanel.tsx:85 | The news guard: title, description and date are all non-empty. `AdminStore.AddNewsEvent` succeeds exactly on it. |
| `Admin.FaqOf` | src/components/AdminPanel.tsx:75-78 | `{ id, ...newFaq }`: the FAQ with the given id and the draft's question, answer and category. `AdminStore.AddFaq` appends it. |
| `Admin.NewsEventOf` | src/components/AdminPanel.tsx:90-95 | The record's time and location are absent exactly when the draft left them blank. |
| `Admin.NewsEventOfKeepsDraft` | src/components/AdminPanel.tsx:90-95 | The record carries the given id, and reading its fields back into the form (`DraftOf`) gives exactly the draft it was made from, blank optional fields included. |
| `Admin.DraftOfRoundTrip` | src/components/AdminPanel.tsx:90-95 | The converse: a record whose time and location are absent or non-blank is rebuilt exactly from its id and its own form fields. |
| `Admin.Without` | src/components/AdminPanel.tsx:102 | Filtering never makes a list longer. |
| `Admin.WithoutMembers` | src/components/AdminPanel.tsx:102 | The filtered list holds exactly the items whose id differs from the deleted id. |
| `Admin.SubsequenceOfCons` | src/components/AdminPanel.tsx:102 | A subsequence stays one when an item is put in front of the longer list. |
| `Admin.SubsequenceOfTail` | src/components/AdminPanel.tsx:102 | Dropping the head of a nonempty subsequence keeps it a subsequence. |
| `Admin.WithoutKeepsOrder` | src/components/AdminPanel.tsx:102 | The filter keeps the surviving items in their original order. |
| `Admin.WithoutAbsent` | src/components/AdminPanel.tsx:107 | Deleting an id no item carries leaves the list unchanged. |
| `Admin.WithoutIdempotent` | src/components/AdminPanel.tsx:102 | Deleting the same id twice is deleting it once. |
| `Admin.WithoutAppend` | src/components/AdminPanel.tsx:107 | Filtering a concatenation filters each part. |
| `Admin.AddThenDelete` | src/components/AdminPanel.tsx:79-102 | Deleting the id of an item just appended under an id nobody else carries restores the list. |
| `Admin.AdminStore.constructor` | src/components/AdminPanel.tsx:33-51 | Logged out, blank login form, the two seed FAQs, the one seed news item, and blank drafts. |
| `Admin.AdminStore.EditLogin` | src/components/AdminPanel.tsx:134 | Only the login form changes. |
| `Admin.AdminStore.EditFaqDraft` | src/components/AdminPanel.tsx:187 | Only the FAQ draft changes. |
| `Admin.AdminStore.EditNewsDraft` | src/components/AdminPanel.tsx:263 | Only the news draft changes. |
| `Admin.AdminStore.Login` | src/components/AdminPanel.tsx:53-61 | Succeeds exactly on "admin"/"admin123" and then only sets the logged-in flag. On any other pair nothing changes. |
| `Admin.AdminStore.Logout` | src/components/AdminPanel.tsx:63-67 | Clears the logged-in flag and blanks the login form. Nothing else changes. |
| `Admin.AdminStore.AddFaq` | src/components/AdminPanel.tsx:69-82 | Succeeds exactly when question and answer are non-empty. It then appends the FAQ built from the draft and resets the draft, leaving the news list and everything else alone. A failure changes nothing. |
| `Admin.AdminStore.AddNewsEvent` | src/components/AdminPanel.tsx:84-99 | Succeeds exactly when title, description and date are non-empty. It then appends the record built from the draft and resets the draft to a blank medium-priority news item, leaving the FAQs alone. A failure changes nothing. |
| `Admin.AdminStore.DeleteFaq` | src/components/AdminPanel.tsx:101-104 | The FAQ list becomes the filtered list, which holds exactly the old FAQs with a different id. Nothing else changes. |
| `Admin.AdminStore.DeleteNewsEvent` | src/components/AdminPanel.tsx:106-109 | The news list becomes the filtered list, which holds exactly the old records with a different id. Nothing else changes. |
| `CampusMap.MarkerColor` | src/components/CampusMap.tsx:85-92 | The muted default is returned exactly for types outside the four known ones. |
| `CampusMap.TypeLabel` | src/components/CampusMap.tsx:95-102 | An unknown type is shown as it is. A known type gets a label different from itself and from every type name. |
| `CampusMap.MarkerColorsDistinct` | src/components/CampusMap.tsx:85-92 | The four known types get four different colours. |
| `CampusMap.TypeLabelIdempotent` | src/components/CampusMap.tsx:95-102 | Applying the label switch to a label changes nothing. |
| `CampusMap.LegendMatchesSwitches` | src/components/CampusMap.tsx:182-197 | The legend pairs each known type's colour with its label, in the switches' order. |
| `CampusMap.SeedKindsKnown` | src/components/CampusMap.tsx:15-80 | Every seed facility has a known type, so no marker takes the default colour. |
| `CampusMap.SeedOnMap` | src/components/CampusMap.tsx:15-80 | Every seed facility's coordinates lie within 0 to 100 percent. |
| `CampusMap.SeedIdsDistinct` | src/components/CampusMap.tsx:159 | The seed ids, used as element keys, are pairwise distinct. |
| `CampusMap.MapView.constructor` | src/components/CampusMap.tsx:83 | No facility is selected at first. |
| `CampusMap.MapView.Select` | src/components/CampusMap.tsx:166 | Clicking a marker selects exactly that facility. |
| `CampusMap.MapView.Close` | src/components/CampusMap.tsx:220 | The close button clears the selection. |

## Left out

- Timers: the one-second typing delay and the 100 ms quick-question delay are asynchronous. The delay's fire is the `DeliverReply` step, and real time is not modelled.
- `handleQuickQuestion` and the Enter-key handler are not modelled. The quick-question timer calls the send handler of the render before `setInputValue(question)` took effect, so it reads the earlier input. That is React scheduling, outside this model.
- Scrolling to the newest message, and the effect that triggers it: DOM access.
- Message timestamps, and the `Date.now()` ids of messages, FAQs and news records. Ids are parameters, and no uniqueness is claimed.
- The toast notifications. The three handlers that can fail (`Login`, `AddFaq`, `AddNewsEvent`) return `ok` instead, which is the toast's success or error outcome. Logout and the two deletes always toast success and return nothing. The edit handlers show no toast.
- The admin panel's `activeTab`, the FAQ category choices and every rendered element: presentation only.
- Lower-casing and whitespace: `Text.Lower` folds only ASCII letters. The keys and quick questions are ASCII, but `toLowerCase` on other scripts is not modelled. Trimming uses the ECMAScript whitespace and line-terminator set.
- `new Date` on the date strings is modelled as a day number read as UTC midnight. Time zones, invalid dates and `new Date()` itself are outside the model: the current instant is a parameter.
- `formatDate`, `getTypeIcon`, the `bg-` to `text-` rewrite of the priority colour for the type icon (src/components/NewsEvents.tsx:134), and the type and priority badges: display formatting.
- The admin handlers do not check `isLoggedIn`, and neither does the model. Only the rendering hides them while logged out.
- Facility coordinates are integers, which is enough for the seed's whole-number percentages.
- The pages, header, hero and floating button components, and the build configuration, are not part of this model.
