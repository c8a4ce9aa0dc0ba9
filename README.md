# Messaging-app core, modelled in Dafny

This project models the logic at the centre of a set of Django and Python
exercises around a chat and messaging application, and proves properties of
that model:

- **Request-gating middleware** (`Middleware`). A per-address sliding-window
  limit on chat messages: at most five POSTs per address per minute. It sits
  beside a time-of-day gate, a role gate and client-address extraction from
  `X-Forwarded-For`. Time is whole seconds; the hour is `0..23`.
- **Reply threads** (`MessageThread`). `get_message_thread` is a recursive
  pre-order walk of a reply tree into a flat list of records. Replies are an
  inductive tree of any depth.
- **Relational message store** (`MessageStore`, `MessageViews`).
  - Users, messages, notifications and message history are in-memory tables.
  - Deleting a user fires the schema's `on_delete` rules: CASCADE everywhere, SET_NULL on `edited_by`.
  - The schema's defaults and the unread-message manager queries.
  - The `delete_user`, `get_messages` and `unread_messages` views.
- **Query cache decorator** (`QueryCache`). A module-level dictionary from query
  text to the rows a wrapped fetch returned. The wrapped fetch is an abstract,
  possibly failing function.
- **Admin display helpers** (`ChatsAdmin`). The 50-character message preview
  and the first three participant names.
- **Nested-map access and memoize** (`NestedMap`). Both are modelled as their
  unit tests describe them:
  - `access_nested_map` descends one key per path element and raises a KeyError that names the failing key;
  - `memoize` computes a property on first access and reads it back afterwards.
- `Wrappers` holds `Option` and `Result`. `Seqs` holds order-preserving
  filtering with its multiplicity facts.

Where the code cannot run as written, the model takes one of two routes.

- Some defects are modelled both as written and as intended, each with its own member; see Findings. These are:
  - the unread filters' `is_read` lookup;
  - the missing `objects` and `unread` managers;
  - the cache wrapper's `query * args`.
- The thread walk is modelled only as intended. As written, `message.replies` names no relation of `Message`, because no model declares `related_name='replies'`. So `get_message_thread` raises AttributeError on every message (see "## Left out"). The model walks an explicitly given reply tree instead.
- Nothing creates notifications or history rows.

## Model

| member | source | states |
|---|---|---|
| Middleware.RestrictAccessByTime | Django-Middleware-0x03/chats/middleware.py:30-39 | a request is passed on iff the hour is 6..21; otherwise 403 "Access denied" |
| Middleware.RolePermission | Django-Middleware-0x03/chats/middleware.py:104-119 | anonymous users pass; authenticated users pass iff their role is `admin` or `moderator`; otherwise 403 with the permissions message |
| Middleware.Strip | Django-Middleware-0x03/chats/middleware.py:89 | the result of `.strip()` has no whitespace at either end |
| Middleware.StripSlice | Django-Middleware-0x03/chats/middleware.py:89 | `.strip()` gives a slice `s[i..j]` of its input with only whitespace before `i` and from `j` on |
| Middleware.StripWithin | Django-Middleware-0x03/chats/middleware.py:89 | stripping only removes characters |
| Middleware.TrimLeftPadded | Django-Middleware-0x03/chats/middleware.py:89 | leading whitespace makes no difference to the left strip |
| Middleware.TrimRightPadded | Django-Middleware-0x03/chats/middleware.py:89 | trailing whitespace makes no difference to the right strip |
| Middleware.StripPadded | Django-Middleware-0x03/chats/middleware.py:89 | a value with no whitespace at its ends, padded with whitespace on both sides, strips back to that value |
| Middleware.ClientIp | Django-Middleware-0x03/chats/middleware.py:85-92 | with a non-empty forwarded-for header the address is the stripped first comma-separated field, made of the header's characters, with no comma and no edge whitespace; otherwise it is `REMOTE_ADDR`, absent when that is absent |
| Middleware.ClientIpFirstHop | Django-Middleware-0x03/chats/middleware.py:87-89 | a forwarded-for list `lead + addr + trail + rest`, with whitespace padding around a comma-free `addr` that has no edge whitespace and a rest starting at a comma, yields exactly `addr`, whatever follows and whatever `REMOTE_ADDR` says |
| Middleware.ClientIpPaddedExample | Django-Middleware-0x03/chats/middleware.py:89 | the header `" 10.0.0.1 ,10.0.0.2"` yields `10.0.0.1` |
| Middleware.FirstField | Django-Middleware-0x03/chats/middleware.py:89 | `split(',')[0]` is a prefix of its input with no comma, followed in the input by a comma when it is shorter |
| Middleware.FirstFieldPrefix | Django-Middleware-0x03/chats/middleware.py:89 | `split(',')[0]` of a string that starts with a comma-free part followed by a comma or nothing is that part |
| Middleware.Prune | Django-Middleware-0x03/chats/middleware.py:64-69 | the kept timestamps are exactly those strictly later than now minus 60 s; one exactly 60 s old is dropped |
| Middleware.PruneConcat | Django-Middleware-0x03/chats/middleware.py:66-69 | pruning keeps the original order |
| Middleware.PruneLater | Django-Middleware-0x03/chats/middleware.py:64-69 | pruning at an earlier time, then at a later one, is pruning at the later one |
| Middleware.AdmitPost | Django-Middleware-0x03/chats/middleware.py:64-79 | a POST is accepted iff fewer than five pruned entries remain; an accepted POST appends `now` last, a refused one is not recorded; a list of at most five stays at most five |
| Middleware.OffensiveLanguageMiddleware.Call | Django-Middleware-0x03/chats/middleware.py:54-83 | non-POST requests leave the log untouched and pass on; a POST sets only the requesting address's list to the admission result and answers 429 on refusal; every other address's list is unchanged; no list exceeds five entries |
| Middleware.RunIsRecentAccepted | Django-Middleware-0x03/chats/middleware.py:56-79 | over POSTs from one address with a clock that never runs backwards, the stored list is exactly the accepted POSTs of the last minute |
| Middleware.RateLimit | Django-Middleware-0x03/chats/middleware.py:72-79 | a POST is accepted iff fewer than five POSTs from that address were accepted in the preceding minute; no minute ending at a request holds more than five accepted POSTs |
| Middleware.RunBounded | Django-Middleware-0x03/chats/middleware.py:72-79 | the stored list never holds more than five timestamps |
| MessageThread.Thread | Django-signals_orm-0x04/messaging/utils.py:5-10 | the thread is non-empty and its first record is the root's `{id, sender, content, timestamp}` |
| MessageThread.GetMessageThread | Django-signals_orm-0x04/messaging/utils.py:3-14 | the list built by appending each reply's thread in a loop is the pre-order thread of the message |
| MessageThread.LeafThread | Django-signals_orm-0x04/messaging/utils.py:5-14 | a message with no replies gives a one-record list |
| MessageThread.ThreadLength | Django-signals_orm-0x04/messaging/utils.py:12-13 | the length is the size of the subtree, one more than the total of the replies' thread lengths |
| MessageThread.ThreadAllLength | Django-signals_orm-0x04/messaging/utils.py:12-13 | the replies' threads together have as many records as the replies' subtrees have messages |
| MessageThread.ThreadAllConcat | Django-signals_orm-0x04/messaging/utils.py:12-13 | the threads of consecutive reply lists are concatenated in enumeration order |
| MessageThread.ThreadAllSplit | Django-signals_orm-0x04/messaging/utils.py:12-13 | the replies' threads are those before the k-th reply, the k-th reply's own thread, then those after it |
| MessageThread.ReplyBlock | Django-signals_orm-0x04/messaging/utils.py:12-13 | the k-th reply's thread is a contiguous block right after the root record and the earlier replies' threads |
| MessageThread.ThreadCoversMembers | Django-signals_orm-0x04/messaging/utils.py:12-13 | a record is in the thread iff it is the record of the root or of one of its descendants |
| MessageThread.ThreadAllCoversMembers | Django-signals_orm-0x04/messaging/utils.py:12-13 | the same, for a list of replies |
| MessageThread.ThreadOncePerMessage | Django-signals_orm-0x04/messaging/utils.py:12-13 | in a tree with unique ids no two records share an id, and the records' ids are exactly the tree's ids |
| MessageThread.ThreadAllOncePerMessage | Django-signals_orm-0x04/messaging/utils.py:12-13 | the same, for a list of replies whose subtrees share no id |
| MessageStore.NewMessageIsUnread | Django-signals_orm-0x04/messaging/models.py:17-21 | a new message is not edited, has no edit time or editor, is stamped now, and is unread for its receiver |
| MessageStore.NewNotificationIsUnread | Django-signals_orm-0x04/messaging/models.py:33 | a new notification is not read |
| MessageStore.ClearEditor | Django-signals_orm-0x04/messaging/models.py:19 | SET_NULL: a message edited by u gets a null editor and keeps every other field; a message not edited by u is unchanged |
| MessageStore.SurvivingMessages | Django-signals_orm-0x04/messaging/models.py:14-19 | every message not sent or received by u survives, with `edited_by` nulled if u edited it; every survivor is an original row, or one whose editor u was set to null; no survivor involves or names u |
| MessageStore.DeleteUserRows | Django-signals_orm-0x04/messaging/models.py:13-42 | u is removed from the users; the messages are the survivors, unchanged or with u's editorship nulled; notifications survive iff addressed to someone else and attached to a surviving message; history rows survive iff their message survives and u is neither sender nor receiver |
| MessageStore.KeptIdNotDoomed | Django-signals_orm-0x04/messaging/models.py:14-15 | with unique ids, a message that survives does not carry the id of a removed one |
| MessageStore.SurvivingIds | Django-signals_orm-0x04/messaging/models.py:14-19 | the surviving messages keep unique ids, and their ids are the old ids minus the removed ones |
| MessageStore.DeleteUserConsistent | Django-signals_orm-0x04/messaging/models.py:13-42 | deletion keeps the tables consistent, and afterwards no row references u or a removed message |
| MessageStore.SurvivorsResolve | Django-signals_orm-0x04/messaging/models.py:14-19 | every surviving message's sender, receiver and editor are remaining users |
| MessageStore.NotificationsResolve | Django-signals_orm-0x04/messaging/models.py:31-32 | the notifications kept by the cascade refer only to remaining users and surviving messages |
| MessageStore.HistoriesResolve | Django-signals_orm-0x04/messaging/models.py:40-42 | the history rows kept by the cascade refer only to surviving messages and remaining users |
| MessageStore.DeleteUserKeepsOthers | Django-signals_orm-0x04/messaging/models.py:14-21 | a message not involving u survives unchanged, except that its editor is nulled if it was u |
| MessageStore.Store.DeleteUser | Django-signals_orm-0x04/messaging/models.py:13-42 | `user.delete()` sets the four tables to the cascade result and keeps them consistent |
| MessageStore.Store.CreateMessage | Django-signals_orm-0x04/messaging/models.py:13-21 | a message between two existing users is added last with a fresh id and the schema's defaults; otherwise an integrity error and nothing changes |
| MessageStore.FreshId | Django-signals_orm-0x04/messaging/models.py:13 | the new id exceeds every id in use |
| MessageStore.UnreadForUser | Django-signals_orm-0x04/messaging/managers.py:7-8 | a message is in the result iff it is in the table, received by u and unread; each appears as often as in the table; the table is not changed |
| MessageStore.Unread | Django-signals_orm-0x04/messaging/models.py:9-10 | one row per unread message received by u, each narrowed to id, sender, content and timestamp |
| MessageStore.FieldOfResolves | Django-signals_orm-0x04/messaging/models.py:13-21 | a lookup name resolves iff it is one of the nine concrete fields `Message` declares; other names Django accepts are left out |
| MessageStore.FilterLookups | Django-signals_orm-0x04/messaging/managers.py:8 | over the nine concrete field names, a filter fails with FieldError exactly when one of its names is not among them, and otherwise keeps exactly the rows matching every lookup |
| MessageStore.UnreadForUserAsWritten | Django-signals_orm-0x04/messaging/managers.py:7-8 | as written, the filter fails exactly because `is_read` is not a `Message` field, and the error names `is_read` |
| MessageStore.UnreadAsWritten | Django-signals_orm-0x04/messaging/models.py:9-10 | as written, `unread` fails with the filter's error, and would otherwise give one projected row per filtered message |
| MessageStore.IsReadLookupFails | Django-signals_orm-0x04/messaging/managers.py:8 | as written, both unread queries fail with FieldError on `is_read` |
| MessageStore.ReadLookupIsUnreadForUser | Django-signals_orm-0x04/messaging/managers.py:8 | with the lookup on `read`, the ORM filter gives exactly the unread-for-user result |
| MessageStore.ReadAndReceiverFields | Django-signals_orm-0x04/messaging/models.py:15-20 | the lookups `read` and `receiver` resolve to the message's read flag and receiver |
| MessageViews.InsertSorted | Django-signals_orm-0x04/messaging/views.py:29-40 | inserting into a timestamp-ordered list keeps it ordered |
| MessageViews.InsertCount | Django-signals_orm-0x04/messaging/views.py:29-40 | insertion adds exactly the inserted message and loses none |
| MessageViews.SortByTimestamp | Django-signals_orm-0x04/messaging/views.py:29-40 | `order_by('timestamp')` or `order_by('-timestamp')` gives an ordered permutation of its input |
| MessageViews.GetMessages | Django-signals_orm-0x04/messaging/views.py:24-34 | without login it redirects to login; an unknown other user gives 404; otherwise it lists exactly the messages between the two users, each as often as stored, in non-decreasing timestamp order |
| MessageViews.GetMessagesSymmetric | Django-signals_orm-0x04/messaging/views.py:29-30 | the conversation of a with b holds the same messages as the one of b with a |
| MessageViews.UnreadMessages | Django-signals_orm-0x04/messaging/views.py:37-42 | it redirects to login iff there is no login; otherwise it lists exactly the user's unread received messages in non-increasing timestamp order |
| MessageViews.GetMessagesAsWritten | Django-signals_orm-0x04/messaging/views.py:26-31 | as written, the view agrees with the intended one whenever it succeeds, and differs from it only by an AttributeError on `objects` once a logged-in request names an existing user |
| MessageViews.GetMessagesAsWrittenFails | Django-signals_orm-0x04/messaging/views.py:24-30 | as written, once the other user exists the view fails with AttributeError on `objects`, while the intended query succeeds |
| MessageViews.UnreadMessagesAsWritten | Django-signals_orm-0x04/messaging/views.py:38-40 | as written, the view agrees with the intended one whenever it succeeds, and differs from it only for a logged-in request, by an AttributeError on `unread` or a FieldError on `is_read` |
| MessageViews.UnreadMessagesAsWrittenFails | Django-signals_orm-0x04/messaging/views.py:40 | as written, a logged-in request fails with AttributeError on `unread`, while the intended query succeeds |
| MessageViews.DeleteUserView | Django-signals_orm-0x04/messaging/views.py:15-22 | an authenticated request deletes exactly that user with the model's cascade and goes home; an anonymous one changes nothing and goes to login |
| QueryCache.QueryCache.Call | python-decorators-0x01/4-cache_query.py:5-17 | a hit returns the stored rows and leaves the cache unchanged; a miss returns the fetch's result and, on success, stores it under the query text alone; a failing fetch leaves the cache unchanged; no entry is ever lost or overwritten |
| QueryCache.QueryCache.CallAsWritten | python-decorators-0x01/4-cache_query.py:9-16 | as written, a miss raises TypeError from `query * args` and stores nothing |
| QueryCache.FetchTwice | python-decorators-0x01/4-cache_query.py:32-45 | the same query twice through a fresh cache: once the first succeeds, the second is served from the cache with the same rows, whatever connection and arguments it brings |
| QueryCache.FetchTwiceAsWritten | python-decorators-0x01/4-cache_query.py:32-45 | as written, the first call raises TypeError, which ends the script; a repeated call would raise again, since nothing was stored |
| ChatsAdmin.MessagePreview | messaging_app/chats/admin.py:47-49 | a body of up to 50 characters is unchanged; a longer one becomes its first 50 characters followed by `...`, exactly 53 characters; the preview starts with the body's first min(50, length) characters and has at most 53 |
| ChatsAdmin.PreviewDependsOnPrefix | messaging_app/chats/admin.py:49 | long bodies that share their first 50 characters have the same preview |
| ChatsAdmin.PreviewIdempotent | messaging_app/chats/admin.py:49 | previewing a preview changes nothing |
| ChatsAdmin.Join | messaging_app/chats/admin.py:34 | `sep.join(parts)`: the empty list gives the empty string, and a join ends with its last part |
| ChatsAdmin.JoinLength | messaging_app/chats/admin.py:34 | the length of a join of n parts is the parts' lengths plus n-1 separators |
| ChatsAdmin.JoinStartsWithFirst | messaging_app/chats/admin.py:34 | a join starts with its first part, followed by the separator when more parts come |
| ChatsAdmin.JoinSnoc | messaging_app/chats/admin.py:34 | adding a part at the end of a non-empty join adds one separator and that part |
| ChatsAdmin.JoinUpToThree | messaging_app/chats/admin.py:34 | joins of one, two and three parts, written out |
| ChatsAdmin.ParticipantList | messaging_app/chats/admin.py:32-34 | no participants give the empty string; one gives that participant's `first last`; two give both names separated by `", "`; three or more give the first three names separated by `", "`; the length is the first min(n, 3) names plus min(n, 3) - 1 separators |
| ChatsAdmin.ParticipantsBeyondThreeIgnored | messaging_app/chats/admin.py:34 | only the first three participants affect the list |
| NestedMap.Walk | 0x03-Unittests_and_integration_tests/test_utils.py:31-39 | a failed walk names one of the path's keys |
| NestedMap.AccessNestedMap | 0x03-Unittests_and_integration_tests/test_utils.py:15-39 | an empty path gives the whole map; a first key that is missing raises KeyError on it; otherwise the walk continues from that key's value |
| NestedMap.WalkConcat | 0x03-Unittests_and_integration_tests/test_utils.py:18-25 | walking `p + q` is walking `p` and then `q` from where it ends; a failure along `p` is the whole walk's failure |
| NestedMap.WalkFailsAt | 0x03-Unittests_and_integration_tests/test_utils.py:29-39 | a failed walk raises the first key it could not follow: the walk up to that key succeeds and the step on it meets a non-map value or a missing key |
| NestedMap.LastKeyError | 0x03-Unittests_and_integration_tests/test_utils.py:39 | the walk fails on the last key of the path, with the rest of the path followed, iff the prefix walk succeeds and the last step fails |
| NestedMap.AccessNestedMapTests | 0x03-Unittests_and_integration_tests/test_utils.py:15-39 | the five cases of `TestAccessNestedMap`: three lookups give 1, `{"b": 2}` and 2; the two failing ones raise KeyError on `a` and on `b` |
| NestedMap.MemoizedProperty.Get | 0x03-Unittests_and_integration_tests/test_utils.py:81-85 | the first access runs the method and stores its value; later ones return the stored value without running it; the method runs at most once |
| NestedMap.MemoizeTwice | 0x03-Unittests_and_integration_tests/test_utils.py:88-101 | two accesses both give 42, and the method runs exactly once |
| Seqs.Filter | Django-signals_orm-0x04/messaging/managers.py:8 | an element is kept iff it occurs in the input and matches, and nothing is added |
| Seqs.FilterCount | Django-signals_orm-0x04/messaging/managers.py:8 | each matching element is kept exactly as often as it occurs, and every other element is dropped |
| Seqs.FilterConcat | Django-Middleware-0x03/chats/middleware.py:66-69 | filtering a concatenation filters each part in order |
| Seqs.FilterDistinct | Django-signals_orm-0x04/messaging/models.py:14-15 | filtering a table with unique keys leaves the keys unique |

## Left out

- `RequestLoggingMiddleware`: it only appends a line to `requests.log`; file I/O is outside the model.
- Real clocks: `datetime.now()` and `timedelta` become the parameters `now` (seconds) and `hour`.
- HTTP responses, JSON serialisation, `logout` and redirects: only the allow or deny decision, the listing, and the effect on the store are modelled.
- The class-level `ip_message_log` shared across threads: it is one map updated sequentially.
- `@cache_page` on `get_messages`: framework response caching.
- `.only(...)` in `unread_messages` and in `UnreadMessagesManager.unread`: deferred loading does not change which rows are returned. `Unread` projects to the four fields; `UnreadMessages` returns whole messages.
- Database tie order: `order_by` leaves equal timestamps in unspecified order. `SortByTimestamp` is one stable order, and its contract promises only order and multiplicity.
- The `replies` relation does not exist. No model declares `related_name='replies'`, and the only reverse accessors on `Message` are `history` (models.py:40) and `notification_set` (models.py:32). So, as written, `message.replies` at utils.py:12 raises AttributeError on every message, after the root record is built. `MessageThread.Thread` and `MessageThread.GetMessageThread` model the intended walk over a reply relation, given directly as an inductive tree; the failing attribute access is not modelled.
- Cycles and the recursion limit: a reply tree here is finite and acyclic. An intended reply relation with a cycle, or with a chain deeper than Python's recursion limit, would make the walk raise RecursionError; the model has no depth limit and returns the whole thread.
- Lookup names: the ORM filter model knows only the nine concrete fields of `Message` (models.py:14-21). Django also resolves `pk`, the attnames `sender_id`, `receiver_id` and `edited_by_id`, the reverse relations `history` and `notification`, and `__` paths; on those names the model reports a FieldError that Django does not raise. The source's lookups (`is_read`, `read`, `receiver`) are all covered.
- Model `__str__` methods, including the one that names a non-existent `recipient`, and the Windows-only import at the top of `models.py`.
- `signals.py`: the `post_save` handler is not modelled. It writes no Notification or MessageHistory rows, so no operation here creates them. It also never reaches `send_mail`: the argument `[instance.recipient.email]` (signals.py:15) raises AttributeError, because `Message` has no `recipient` field, and `fail_silently=True` does not cover that. If the handler is connected (the app configuration is not part of this model), every insert `MessageStore.Store.CreateMessage` describes ends in that AttributeError after the row is written; `CreateMessage` models only the insert.
- `with_db_connection`, sqlite and `print`: the wrapped fetch is a parameter, and the connection is an opaque value.
- The wrapper's `**kwargs`: keyword arguments are not modelled. The cache key is the query alone, so they affect only what the wrapped fetch computes on a miss.
- The chats project's `ROLE_CHOICES` do not include `moderator`. The role gate accepts whatever role string the user carries.
- Whitespace for `.strip()` is the set of characters Python's `str.isspace` accepts, all in the Basic Multilingual Plane; characters beyond it are never whitespace, so no model difference arises there.
- `TestGetJson` and `test_client.py`: they test network access through mocks.
- DRF serializers, viewsets, routing, filters, pagination, permissions and token authentication: framework glue with no independent logic.
- `MessageStore.Store.DeleteUser`: the contract states the new tables as the function `DeleteUserRows`. The checked properties come from the lemmas about that function.

## Findings

| source | as written | input that shows it | evidently intended | confidence | as-written member | corrected member |
|---|---|---|---|---|---|---|
| Django-signals_orm-0x04/messaging/managers.py:8 | `filter(is_read=False, receiver=user)` names a field that `Message` does not have (`is_read` belongs to Notification), so the query raises FieldError | any call of `unread_for_user(u)` or `unread(u)` (models.py:10), whatever the table holds | filter on `read=False` | not executed | MessageStore.IsReadLookupFails | MessageStore.ReadLookupIsUnreadForUser |
| Django-signals_orm-0x04/messaging/views.py:40 | `Message.unread` names no manager; the manager is `unread_messages` (models.py:23), so the view raises AttributeError | any authenticated request to `unread_messages` | `Message.unread_messages.unread(user)`, with the filter on `read`. `Message.unread_messages.unread_for_user(user)` would raise a second AttributeError: the manager on `Message` (models.py:7-10) defines only `unread`, and the manager of managers.py is attached to no model | not executed | MessageViews.UnreadMessagesAsWrittenFails | MessageViews.UnreadMessages |
| Django-signals_orm-0x04/messaging/views.py:29 | `Message.objects` does not exist: declaring `unread_messages` as the manager suppresses the implicit `objects` | an authenticated request for any existing `user_id` | a default manager next to the custom one | not executed | MessageViews.GetMessagesAsWrittenFails | MessageViews.GetMessages |
| python-decorators-0x01/4-cache_query.py:13 | `func(con, query *args, **kwargs)` evaluates `query * args`, a string times a tuple, which raises TypeError before anything is stored | the first call `fetch_users_with_cache(query="SELECT * FROM users")` (line 40) | `func(con, query, *args, **kwargs)` | not executed | QueryCache.QueryCache.CallAsWritten | QueryCache.QueryCache.Call |
