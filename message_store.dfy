/** The messaging app's relational store: users, messages, notifications and
    message history as in-memory tables, with the schema's defaults, the
    `on_delete` rules that fire when a user is deleted (CASCADE everywhere,
    SET_NULL on `edited_by`), and the unread-message queries. */
module MessageStore {
  import opened Wrappers
  import opened Seqs

  type UserId = int
  type MessageId = int
  type Time = int

  datatype Message = Message(
    id: MessageId,
    sender: UserId,
    receiver: UserId,
    content: string,
    edited: bool,
    editedAt: Option<Time>,
    editedBy: Option<UserId>,
    read: bool,
    timestamp: Time)

  datatype Notification = Notification(id: int, user: UserId, message: MessageId, isRead: bool)

  datatype MessageHistory = MessageHistory(
    id: int,
    message: MessageId,
    sender: UserId,
    receiver: UserId,
    content: string,
    timestamp: Time)

  /** A message as the ORM inserts it: not edited, not read, no editor, stamped
      with the creation time (`auto_now_add`). */
  function NewMessage(id: MessageId, sender: UserId, receiver: UserId, content: string, now: Time): Message
  {
    Message(id, sender, receiver, content, false, None, None, false, now)
  }

  /** A notification as the ORM inserts it: not read. */
  function NewNotification(id: int, user: UserId, message: MessageId): Notification
  {
    Notification(id, user, message, false)
  }

  /** The four tables. */
  datatype Db = Db(
    users: set<UserId>,
    messages: seq<Message>,
    notifications: seq<Notification>,
    histories: seq<MessageHistory>)

  function MessageIds(msgs: seq<Message>): set<MessageId>
  {
    set m | m in msgs :: m.id
  }

  function MessageKey(m: Message): MessageId
  {
    m.id
  }

  /** Primary keys are unique and every foreign key resolves. */
  ghost predicate Consistent(db: Db)
  {
    && DistinctBy(db.messages, MessageKey)
    && (forall m | m in db.messages ::
          m.sender in db.users && m.receiver in db.users
          && (m.editedBy.Some? ==> m.editedBy.value in db.users))
    && (forall n | n in db.notifications ::
          n.user in db.users && n.message in MessageIds(db.messages))
    && (forall h | h in db.histories ::
          h.message in MessageIds(db.messages) && h.sender in db.users && h.receiver in db.users)
  }

  // ---------------------------------------------------------------------------
  // Deleting a user

  /** `sender` and `receiver` are CASCADE foreign keys. */
  predicate Involves(m: Message, u: UserId)
  {
    m.sender == u || m.receiver == u
  }

  /** The messages the cascade removes, by id. */
  function DoomedIds(msgs: seq<Message>, u: UserId): set<MessageId>
  {
    set m | m in msgs && Involves(m, u) :: m.id
  }

  /** SET_NULL on `edited_by`. */
  function ClearEditor(m: Message, u: UserId): (r: Message)
    ensures r.editedBy != Some(u)
    ensures m.editedBy == Some(u) ==> r.editedBy == None
    ensures r.(editedBy := m.editedBy) == m
    ensures m.editedBy != Some(u) ==> r == m
  {
    if m.editedBy == Some(u) then m.(editedBy := None) else m
  }

  function ClearEditors(msgs: seq<Message>, u: UserId): (r: seq<Message>)
    ensures |r| == |msgs|
    ensures forall i | 0 <= i < |msgs| :: r[i] == ClearEditor(msgs[i], u)
  {
    seq(|msgs|, i requires 0 <= i < |msgs| => ClearEditor(msgs[i], u))
  }

  function KeepMessage(u: UserId): Message -> bool
  {
    (m: Message) => !Involves(m, u)
  }

  function KeepNotification(doomed: set<MessageId>, u: UserId): Notification -> bool
  {
    (n: Notification) => n.user != u && n.message !in doomed
  }

  function KeepHistory(doomed: set<MessageId>, u: UserId): MessageHistory -> bool
  {
    (h: MessageHistory) => h.message !in doomed && h.sender != u && h.receiver != u
  }

  /** The messages that survive the deletion of `u`: those that neither `u`
      sent nor received, with `u` cleared as their editor, in table order. */
  function SurvivingMessages(msgs: seq<Message>, u: UserId): (r: seq<Message>)
    ensures forall m | m in msgs && !Involves(m, u) :: ClearEditor(m, u) in r
    ensures forall m | m in r ::
              !Involves(m, u) && m.editedBy != Some(u)
              && (m in msgs || (m.editedBy == None && m.(editedBy := Some(u)) in msgs))
  {
    var kept := Filter(msgs, KeepMessage(u));
    var r := ClearEditors(kept, u);
    assert forall m | m in msgs && !Involves(m, u) :: ClearEditor(m, u) in r by {
      forall m | m in msgs && !Involves(m, u) ensures ClearEditor(m, u) in r {
        assert m in kept;
        var i :| 0 <= i < |kept| && kept[i] == m;
        assert r[i] == ClearEditor(m, u);
      }
    }
    assert forall m | m in r ::
              !Involves(m, u) && m.editedBy != Some(u) && (m in msgs || (m.editedBy == None && m.(editedBy := Some(u)) in msgs)) by {
      forall m | m in r
        ensures !Involves(m, u) && m.editedBy != Some(u) && (m in msgs || (m.editedBy == None && m.(editedBy := Some(u)) in msgs))
      {
        var i :| 0 <= i < |r| && r[i] == m;
        assert kept[i] in kept;
      }
    }
    r
  }

  /** The effect of `user.delete()` on the tables: the user goes; so does every
      message they sent or received, every notification addressed to them or
      about a removed message, and every history row of a removed message or
      with them as sender or receiver; surviving messages they edited lose
      their editor.  Nothing else changes. */
  function DeleteUserRows(db: Db, u: UserId): (r: Db)
    ensures r.users == db.users - {u}
    ensures forall m | m in db.messages && !Involves(m, u) :: ClearEditor(m, u) in r.messages
    ensures forall m | m in r.messages ::
              !Involves(m, u) && m.editedBy != Some(u)
              && (m in db.messages || (m.editedBy == None && m.(editedBy := Some(u)) in db.messages))
    ensures forall n :: n in r.notifications <==>
              n in db.notifications && n.user != u && n.message !in DoomedIds(db.messages, u)
    ensures forall h :: h in r.histories <==>
              h in db.histories && h.message !in DoomedIds(db.messages, u)
              && h.sender != u && h.receiver != u
  {
    var doomed := DoomedIds(db.messages, u);
    Db(db.users - {u},
       SurvivingMessages(db.messages, u),
       Filter(db.notifications, KeepNotification(doomed, u)),
       Filter(db.histories, KeepHistory(doomed, u)))
  }

  /** A kept message's id is not among the removed ones (ids are unique). */
  lemma KeptIdNotDoomed(msgs: seq<Message>, u: UserId, m: Message)
    requires DistinctBy(msgs, MessageKey)
    requires m in msgs && !Involves(m, u)
    ensures m.id !in DoomedIds(msgs, u)
  {
    var i :| 0 <= i < |msgs| && msgs[i] == m;
    forall d | d in msgs && Involves(d, u) ensures d.id != m.id {
      var j :| 0 <= j < |msgs| && msgs[j] == d;
      assert i != j;
      assert MessageKey(msgs[i]) != MessageKey(msgs[j]);
    }
  }

  /** The surviving messages keep unique ids, and their ids are exactly the
      ids that were not removed. */
  lemma SurvivingIds(msgs: seq<Message>, u: UserId)
    requires DistinctBy(msgs, MessageKey)
    ensures DistinctBy(SurvivingMessages(msgs, u), MessageKey)
    ensures MessageIds(SurvivingMessages(msgs, u)) == MessageIds(msgs) - DoomedIds(msgs, u)
  {
    var r := SurvivingMessages(msgs, u);
    var kept := Filter(msgs, KeepMessage(u));
    FilterDistinct(msgs, KeepMessage(u), MessageKey);
    assert r == ClearEditors(kept, u);
    assert DistinctBy(r, MessageKey) by {
      forall i, j | 0 <= i < j < |r| ensures MessageKey(r[i]) != MessageKey(r[j]) {
        assert MessageKey(kept[i]) != MessageKey(kept[j]);
      }
    }
    forall m | m in r ensures m.id in MessageIds(msgs) - DoomedIds(msgs, u) {
      var m0 := if m in msgs then m else m.(editedBy := Some(u));
      assert m0 in msgs && !Involves(m0, u) && m0.id == m.id;
      KeptIdNotDoomed(msgs, u, m0);
    }
    forall id | id in MessageIds(msgs) - DoomedIds(msgs, u) ensures id in MessageIds(r) {
      var m :| m in msgs && m.id == id;
      assert ClearEditor(m, u) in r;
    }
  }

  /** After the deletion no row refers to the deleted user or to a removed
      message, and every remaining foreign key still resolves. */
  lemma DeleteUserConsistent(db: Db, u: UserId)
    requires Consistent(db)
    ensures Consistent(DeleteUserRows(db, u))
    ensures var r := DeleteUserRows(db, u);
            var doomed := DoomedIds(db.messages, u);
            && (forall m | m in r.messages :: !Involves(m, u) && m.editedBy != Some(u) && m.id !in doomed)
            && (forall n | n in r.notifications :: n.user != u && n.message !in doomed)
            && (forall h | h in r.histories :: h.sender != u && h.receiver != u && h.message !in doomed)
  {
    var doomed := DoomedIds(db.messages, u);
    SurvivingIds(db.messages, u);
    SurvivorsResolve(db, u);
    NotificationsResolve(db.notifications, db.users, MessageIds(db.messages), doomed, u);
    HistoriesResolve(db.histories, db.users, MessageIds(db.messages), doomed, u);
  }

  lemma SurvivorsResolve(db: Db, u: UserId)
    requires Consistent(db)
    ensures var r := DeleteUserRows(db, u);
            forall m | m in r.messages ::
              m.sender in r.users && m.receiver in r.users
              && (m.editedBy.Some? ==> m.editedBy.value in r.users)
  {
    var r := DeleteUserRows(db, u);
    forall m | m in r.messages
      ensures m.sender in r.users && m.receiver in r.users
      ensures m.editedBy.Some? ==> m.editedBy.value in r.users
    {
      var m0 := if m in db.messages then m else m.(editedBy := Some(u));
      assert m0 in db.messages;
    }
  }

  /** CASCADE on a notification's user and message: the kept notifications
      refer to remaining users and messages only. */
  lemma NotificationsResolve(ns: seq<Notification>, users: set<UserId>, ids: set<MessageId>,
                             doomed: set<MessageId>, u: UserId)
    requires forall n | n in ns :: n.user in users && n.message in ids
    ensures forall n | n in Filter(ns, KeepNotification(doomed, u)) :: n.user in users - {u} && n.message in ids - doomed
  {
  }

  /** CASCADE on a history row's message, sender and receiver: the kept rows
      refer to remaining users and messages only. */
  lemma HistoriesResolve(hs: seq<MessageHistory>, users: set<UserId>, ids: set<MessageId>,
                         doomed: set<MessageId>, u: UserId)
    requires forall h | h in hs :: h.message in ids && h.sender in users && h.receiver in users
    ensures forall h | h in Filter(hs, KeepHistory(doomed, u)) ::
              h.message in ids - doomed && h.sender in users - {u} && h.receiver in users - {u}
  {
  }

  /** Messages between other users, not edited by the deleted user, survive
      unchanged; the others they edited survive with no editor. */
  lemma DeleteUserKeepsOthers(db: Db, u: UserId, m: Message)
    requires m in db.messages && !Involves(m, u)
    ensures m.editedBy != Some(u) ==> m in DeleteUserRows(db, u).messages
    ensures m.editedBy == Some(u) ==> m.(editedBy := None) in DeleteUserRows(db, u).messages
  {
  }

  class Store {
    var users: set<UserId>
    var messages: seq<Message>
    var notifications: seq<Notification>
    var histories: seq<MessageHistory>

    function State(): Db
      reads this
    {
      Db(users, messages, notifications, histories)
    }

    ghost predicate Valid()
      reads this
    {
      Consistent(State())
    }

    constructor (db: Db)
      requires Consistent(db)
      ensures Valid() && State() == db
    {
      users, messages, notifications, histories := db.users, db.messages, db.notifications, db.histories;
    }

    /** `user.delete()`: the cascade over the four tables. */
    method DeleteUser(u: UserId)
      requires Valid()
      modifies this
      ensures Valid()
      ensures State() == DeleteUserRows(old(State()), u)
    {
      DeleteUserConsistent(State(), u);
      var doomed := DoomedIds(messages, u);
      histories := Filter(histories, KeepHistory(doomed, u));
      notifications := Filter(notifications, KeepNotification(doomed, u));
      messages := ClearEditors(Filter(messages, KeepMessage(u)), u);
      users := users - {u};
    }

    /** An ORM insert of a message (sender, receiver, content) at time `now`: a new row with a fresh id and the schema's defaults, or an
        integrity error when a party is not a user. */
    method CreateMessage(sender: UserId, receiver: UserId, content: string, now: Time)
      returns (r: Result<MessageId, QueryError>)
      requires Valid()
      modifies this
      ensures Valid()
      ensures r.Failure? <==> sender !in old(users) || receiver !in old(users)
      ensures r.Failure? ==> r.error == IntegrityError && State() == old(State())
      ensures r.Success? ==>
                && r.value !in MessageIds(old(messages))
                && messages == old(messages) + [NewMessage(r.value, sender, receiver, content, now)]
                && users == old(users) && notifications == old(notifications) && histories == old(histories)
    {
      if sender !in users || receiver !in users {
        return Failure(IntegrityError);
      }
      var id := FreshId(messages);
      ghost var before := messages;
      messages := messages + [NewMessage(id, sender, receiver, content, now)];
      assert MessageIds(messages) == MessageIds(before) + {id};
      assert DistinctBy(messages, MessageKey) by {
        forall i, j | 0 <= i < j < |messages| ensures MessageKey(messages[i]) != MessageKey(messages[j]) {
          if j == |before| {
            assert messages[i] == before[i] && before[i] in before;
          } else {
            assert messages[i] == before[i] && messages[j] == before[j];
          }
        }
      }
      r := Success(id);
    }
  }

  /** The next auto-increment id: one more than the largest in use. */
  function FreshId(msgs: seq<Message>): (id: MessageId)
    ensures id !in MessageIds(msgs)
    ensures forall m | m in msgs :: m.id < id
  {
    if msgs == [] then 1
    else
      var rest := FreshId(msgs[1..]);
      assert forall m | m in msgs :: m == msgs[0] || m in msgs[1..];
      if msgs[0].id < rest then rest else msgs[0].id + 1
  }

  // ---------------------------------------------------------------------------
  // Unread messages

  predicate IsUnreadFor(m: Message, u: UserId)
  {
    m.receiver == u && !m.read
  }

  function UnreadFor(u: UserId): Message -> bool
  {
    (m: Message) => IsUnreadFor(m, u)
  }

  /** `UnreadMessagesManager.unread_for_user`, read as intended (`read=False`):
      exactly the unread messages received by `u`, each as often as in the
      table. */
  function UnreadForUser(msgs: seq<Message>, u: UserId): (r: seq<Message>)
    ensures forall m :: m in r <==> m in msgs && m.receiver == u && !m.read
    ensures forall m :: multiset(r)[m] == if IsUnreadFor(m, u) then multiset(msgs)[m] else 0
  {
    FilterCount(msgs, UnreadFor(u));
    Filter(msgs, UnreadFor(u))
  }

  /** The fields `.only('id', 'sender', 'content', 'timestamp')` loads. */
  datatype UnreadRow = UnreadRow(id: MessageId, sender: UserId, content: string, timestamp: Time)

  function Project(m: Message): UnreadRow
  {
    UnreadRow(m.id, m.sender, m.content, m.timestamp)
  }

  /** Each row narrowed to the four loaded fields, in order. */
  function ProjectAll(f: seq<Message>): (r: seq<UnreadRow>)
    ensures |r| == |f|
    ensures forall i | 0 <= i < |f| :: r[i] == Project(f[i])
    ensures forall row :: row in r <==> exists m | m in f :: Project(m) == row
  {
    var r := seq(|f|, i requires 0 <= i < |f| => Project(f[i]));
    assert forall m | m in f :: Project(m) in r by {
      forall m | m in f ensures Project(m) in r {
        var i :| 0 <= i < |f| && f[i] == m;
        assert r[i] == Project(m);
      }
    }
    r
  }

  /** `UnreadMessagesManager.unread` (models.py), read as intended: the unread
      messages received by `u`, narrowed to four fields. */
  function Unread(msgs: seq<Message>, u: UserId): (r: seq<UnreadRow>)
    ensures |r| == |UnreadForUser(msgs, u)|
    ensures forall row :: row in r <==> exists m :: m in msgs && IsUnreadFor(m, u) && Project(m) == row
  {
    ProjectAll(UnreadForUser(msgs, u))
  }

  /** A freshly created message is unread for its receiver. */
  lemma NewMessageIsUnread(msgs: seq<Message>, id: MessageId, sender: UserId, receiver: UserId,
                           content: string, now: Time)
    ensures var m := NewMessage(id, sender, receiver, content, now);
            && !m.edited && m.editedAt == None && m.editedBy == None && m.timestamp == now
            && m in UnreadForUser(msgs + [m], receiver)
            && UnreadRow(id, sender, content, now) in Unread(msgs + [m], receiver)
  {
    var m := NewMessage(id, sender, receiver, content, now);
    assert m in msgs + [m];
  }

  /** A new notification is unread. */
  lemma NewNotificationIsUnread(id: int, user: UserId, message: MessageId)
    ensures !NewNotification(id, user, message).isRead
  {
  }

  // ---------------------------------------------------------------------------
  // Field lookups, as the ORM resolves them

  datatype QueryError = FieldError(field: string) | AttributeError(name: string) | IntegrityError

  datatype FieldValue = Null | IntValue(i: int) | TextValue(s: string) | BoolValue(b: bool)

  /** The value of `m`'s concrete field `name`, or None for any other name.  Only
      the nine declared fields are modelled: `pk`, attnames such as `sender_id`,
      reverse relations and `__` paths are not. */
  function FieldOf(m: Message, name: string): Option<FieldValue>
  {
    match name
    case "id" => Some(IntValue(m.id))
    case "sender" => Some(IntValue(m.sender))
    case "receiver" => Some(IntValue(m.receiver))
    case "content" => Some(TextValue(m.content))
    case "edited" => Some(BoolValue(m.edited))
    case "edited_at" => Some(if m.editedAt.Some? then IntValue(m.editedAt.value) else Null)
    case "edited_by" => Some(if m.editedBy.Some? then IntValue(m.editedBy.value) else Null)
    case "read" => Some(BoolValue(m.read))
    case "timestamp" => Some(IntValue(m.timestamp))
    case _ => None
  }

  /** The concrete field names of `Message`. */
  const MessageFields: set<string> :=
    {"id", "sender", "receiver", "content", "edited", "edited_at", "edited_by", "read", "timestamp"}

  lemma FieldOfResolves(m: Message, name: string)
    ensures FieldOf(m, name).Some? <==> name in MessageFields
  {
  }

  datatype Lookup = Lookup(field: string, value: FieldValue)

  function Matches(l: Lookup): Message -> bool
  {
    (m: Message) => FieldOf(m, l.field) == Some(l.value)
  }

  /** `Message.<manager>.filter(f1=v1, f2=v2, ...)`: the rows matching every
      lookup, or a FieldError naming the first field `Message` does not have. */
  function FilterLookups(msgs: seq<Message>, lookups: seq<Lookup>): (r: Result<seq<Message>, QueryError>)
    decreases lookups
    ensures r.Failure? <==> exists l | l in lookups :: l.field !in MessageFields
    ensures r.Failure? ==> r.error.FieldError? && r.error.field !in MessageFields
    ensures r.Success? ==> forall m :: m in r.value <==> m in msgs && forall l | l in lookups :: Matches(l)(m)
  {
    if lookups == [] then Success(msgs)
    else if lookups[0].field !in MessageFields then Failure(FieldError(lookups[0].field))
    else
      assert forall l | l in lookups :: l == lookups[0] || l in lookups[1..];
      FilterLookups(Filter(msgs, Matches(lookups[0])), lookups[1..])
  }

  /** The lookups the unread filters are meant to make. */
  function UnreadLookups(u: UserId): seq<Lookup>
  {
    [Lookup("read", BoolValue(false)), Lookup("receiver", IntValue(u))]
  }

  /** The lookups `unread` and `unread_for_user` make as written. */
  function UnreadLookupsAsWritten(u: UserId): seq<Lookup>
  {
    [Lookup("is_read", BoolValue(false)), Lookup("receiver", IntValue(u))]
  }

  /** `unread_for_user` as written (managers.py). */
  function UnreadForUserAsWritten(msgs: seq<Message>, u: UserId): (r: Result<seq<Message>, QueryError>)
    ensures r.Failure? <==> "is_read" !in MessageFields
    ensures r.Failure? ==> r.error == FieldError("is_read")
  {
    FilterLookups(msgs, UnreadLookupsAsWritten(u))
  }

  /** `unread` as written (models.py). */
  function UnreadAsWritten(msgs: seq<Message>, u: UserId): (r: Result<seq<UnreadRow>, QueryError>)
    ensures UnreadForUserAsWritten(msgs, u).Failure? ==> r == Failure(UnreadForUserAsWritten(msgs, u).error)
    ensures r.Success? ==> forall row :: row in r.value <==>
              exists m | m in UnreadForUserAsWritten(msgs, u).value :: row == Project(m)
  {
    match UnreadForUserAsWritten(msgs, u)
    case Failure(e) => Failure(e)
    case Success(rows) => Success(ProjectAll(rows))
  }

  /** As written, both unread filters fail on every table: `is_read` is a
      Notification field, not a Message field. */
  lemma IsReadLookupFails(msgs: seq<Message>, u: UserId)
    ensures UnreadForUserAsWritten(msgs, u) == Failure(FieldError("is_read"))
    ensures UnreadAsWritten(msgs, u) == Failure(FieldError("is_read"))
  {
  }

  /** With `read` in place of `is_read`, the lookups select exactly
      `UnreadForUser`, in table order. */
  lemma ReadLookupIsUnreadForUser(msgs: seq<Message>, u: UserId)
    ensures FilterLookups(msgs, UnreadLookups(u)) == Success(UnreadForUser(msgs, u))
  {
    var ls := UnreadLookups(u);
    var once := Filter(msgs, Matches(ls[0]));
    var twice := Filter(once, Matches(ls[1]));
    assert ls[1..][1..] == [];
    assert FilterLookups(twice, ls[1..][1..]) == Success(twice);
    assert FilterLookups(once, ls[1..]) == Success(twice);
    assert FilterLookups(msgs, ls) == Success(twice);
    forall m ensures UnreadFor(u)(m) <==> Matches(ls[0])(m) && Matches(ls[1])(m) {
      ReadAndReceiverFields(m);
    }
    FilterTwice(msgs, Matches(ls[0]), Matches(ls[1]), UnreadFor(u));
  }

  lemma ReadAndReceiverFields(m: Message)
    ensures FieldOf(m, "read") == Some(BoolValue(m.read))
    ensures FieldOf(m, "receiver") == Some(IntValue(m.receiver))
  {
  }

  lemma {:induction false} FilterTwice(msgs: seq<Message>, p: Message -> bool, q: Message -> bool,
                                      both: Message -> bool)
    requires forall m :: both(m) <==> p(m) && q(m)
    ensures Filter(Filter(msgs, p), q) == Filter(msgs, both)
  {
    if msgs != [] {
      FilterTwice(msgs[1..], p, q, both);
    }
  }
}
