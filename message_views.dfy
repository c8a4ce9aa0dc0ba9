/** The messaging views' effect on the store: `delete_user`, the two-party
    conversation of `get_messages` and the unread listing of `unread_messages`.
    The request's user is `Some(id)` when authenticated and None otherwise. */
module MessageViews {
  import opened Wrappers
  import opened Seqs
  import opened MessageStore

  /** Why a view produced no listing: `@login_required` redirected to login,
      `get_object_or_404` answered 404, or evaluating the query raised. */
  datatype ViewError = LoginRequired | NotFound | QueryFailed(e: QueryError)

  datatype Redirect = ToHome | ToLogin

  // ---------------------------------------------------------------------------
  // Ordering by timestamp

  /** `a` may come before `b` under `order_by('timestamp')`, or under
      `order_by('-timestamp')` when `descending`. */
  predicate InOrder(a: Message, b: Message, descending: bool)
  {
    if descending then a.timestamp >= b.timestamp else a.timestamp <= b.timestamp
  }

  predicate SortedBy(s: seq<Message>, descending: bool)
  {
    forall i, j | 0 <= i < j < |s| :: InOrder(s[i], s[j], descending)
  }

  /** `x` placed before the first element of `s` it may precede. */
  function InsertByTimestamp(x: Message, s: seq<Message>, descending: bool): seq<Message>
  {
    if s == [] || InOrder(x, s[0], descending) then [x] + s
    else [s[0]] + InsertByTimestamp(x, s[1..], descending)
  }

  /** Insertion adds exactly `x`. */
  lemma {:induction false} InsertCount(x: Message, s: seq<Message>, descending: bool)
    ensures multiset(InsertByTimestamp(x, s, descending)) == multiset(s) + multiset{x}
  {
    if s != [] && !InOrder(x, s[0], descending) {
      InsertCount(x, s[1..], descending);
      assert s == [s[0]] + s[1..];
    }
  }

  /** Every element after the head of an ordered sequence may follow the head. */
  lemma HeadPrecedesTail(s: seq<Message>, descending: bool, y: Message)
    requires SortedBy(s, descending) && s != [] && y in s[1..]
    ensures InOrder(s[0], y, descending)
  {
    var j :| 0 <= j < |s[1..]| && s[1..][j] == y;
    assert s[j + 1] == y;
  }

  /** An ordered sequence stays ordered below a head that may precede all of it. */
  lemma ConsSorted(h: Message, s: seq<Message>, descending: bool)
    requires SortedBy(s, descending)
    requires forall k | 0 <= k < |s| :: InOrder(h, s[k], descending)
    ensures SortedBy([h] + s, descending)
  {
    var r := [h] + s;
    forall i, j | 0 <= i < j < |r| ensures InOrder(r[i], r[j], descending) {
      assert r[j] == s[j - 1];
      if i > 0 {
        assert r[i] == s[i - 1];
      }
    }
  }

  lemma TailSorted(s: seq<Message>, descending: bool)
    requires SortedBy(s, descending) && s != []
    ensures SortedBy(s[1..], descending)
  {
    forall i, j | 0 <= i < j < |s[1..]| ensures InOrder(s[1..][i], s[1..][j], descending) {
      assert s[1..][i] == s[i + 1] && s[1..][j] == s[j + 1];
    }
  }

  /** Insertion into an ordered sequence keeps it ordered. */
  lemma {:induction false} InsertSorted(x: Message, s: seq<Message>, descending: bool)
    requires SortedBy(s, descending)
    ensures SortedBy(InsertByTimestamp(x, s, descending), descending)
  {
    if s == [] || InOrder(x, s[0], descending) {
      forall k | 0 <= k < |s| ensures InOrder(x, s[k], descending) {
        if k > 0 {
          assert InOrder(s[0], s[k], descending);
        }
      }
      ConsSorted(x, s, descending);
    } else {
      var rest := InsertByTimestamp(x, s[1..], descending);
      TailSorted(s, descending);
      InsertSorted(x, s[1..], descending);
      InsertCount(x, s[1..], descending);
      forall k | 0 <= k < |rest| ensures InOrder(s[0], rest[k], descending) {
        assert rest[k] in multiset(rest);
        if rest[k] != x {
          assert rest[k] in multiset(s[1..]);
          HeadPrecedesTail(s, descending, rest[k]);
        }
      }
      ConsSorted(s[0], rest, descending);
    }
  }

  /** A stable sort by timestamp: the same messages, each as often, in order. */
  function SortByTimestamp(s: seq<Message>, descending: bool): (r: seq<Message>)
    ensures SortedBy(r, descending)
    ensures multiset(r) == multiset(s)
  {
    if s == [] then []
    else
      var rest := SortByTimestamp(s[1..], descending);
      InsertSorted(s[0], rest, descending);
      InsertCount(s[0], rest, descending);
      assert s == [s[0]] + s[1..];
      InsertByTimestamp(s[0], rest, descending)
  }

  // ---------------------------------------------------------------------------
  // get_messages

  predicate BetweenUsers(m: Message, a: UserId, b: UserId)
  {
    (m.sender == a && m.receiver == b) || (m.sender == b && m.receiver == a)
  }

  function Between(a: UserId, b: UserId): Message -> bool
  {
    (m: Message) => BetweenUsers(m, a, b)
  }

  /** `get_messages(request, user_id)`: login is required, the other user must
      exist, and then it lists every message between the two, oldest first. */
  function GetMessages(db: Db, requester: Option<UserId>, other: UserId): (r: Result<seq<Message>, ViewError>)
    ensures requester == None ==> r == Failure(LoginRequired)
    ensures requester.Some? && other !in db.users ==> r == Failure(NotFound)
    ensures requester.Some? && other in db.users ==>
              && r.Success?
              && SortedBy(r.value, false)
              && forall m :: multiset(r.value)[m] ==
                               if BetweenUsers(m, requester.value, other) then multiset(db.messages)[m] else 0
  {
    if requester.None? then Failure(LoginRequired)
    else if other !in db.users then Failure(NotFound)
    else
      FilterCount(db.messages, Between(requester.value, other));
      Success(SortByTimestamp(Filter(db.messages, Between(requester.value, other)), false))
  }

  /** The conversation in either direction is the same listing. */
  lemma GetMessagesSymmetric(db: Db, a: UserId, b: UserId)
    requires a in db.users && b in db.users
    ensures var ab := GetMessages(db, Some(a), b);
            var ba := GetMessages(db, Some(b), a);
            ab.Success? && ba.Success? && multiset(ab.value) == multiset(ba.value)
  {
    var ab := GetMessages(db, Some(a), b).value;
    var ba := GetMessages(db, Some(b), a).value;
    forall m ensures multiset(ab)[m] == multiset(ba)[m] {
      assert BetweenUsers(m, a, b) <==> BetweenUsers(m, b, a);
    }
    assert multiset(ab) == multiset(ba);
  }

  // ---------------------------------------------------------------------------
  // unread_messages

  /** `unread_messages(request)`, read as intended (the `unread_messages`
      manager's `unread(user)`, filtering on `read`): login is required, then the
      unread messages received by the user, newest first. */
  function UnreadMessages(db: Db, requester: Option<UserId>): (r: Result<seq<Message>, ViewError>)
    ensures requester == None <==> r == Failure(LoginRequired)
    ensures requester.Some? ==>
              && r.Success?
              && SortedBy(r.value, true)
              && (forall m | m in r.value :: m.receiver == requester.value && !m.read)
              && forall m :: multiset(r.value)[m] ==
                               if IsUnreadFor(m, requester.value) then multiset(db.messages)[m] else 0
  {
    if requester.None? then Failure(LoginRequired)
    else
      var unread := UnreadForUser(db.messages, requester.value);
      var sorted := SortByTimestamp(unread, true);
      assert forall m | m in sorted :: m in unread by {
        forall m | m in sorted ensures m in unread {
          assert m in multiset(sorted);
        }
      }
      Success(sorted)
  }

  // ---------------------------------------------------------------------------
  // The views as written: manager lookups on Message

  /** The managers declared on `Message`: only `unread_messages`.  Declaring
      any manager suppresses the implicit `objects`. */
  const DeclaredManagers: set<string> := {"unread_messages"}

  /** Looking up a manager attribute on the model class. */
  function ManagerAttribute(declared: set<string>, name: string): Result<string, QueryError>
  {
    if name in declared then Success(name) else Failure(AttributeError(name))
  }

  /** `get_messages` as written: `Message.objects.filter(...)`. */
  function GetMessagesAsWritten(db: Db, requester: Option<UserId>, other: UserId): (r: Result<seq<Message>, ViewError>)
    ensures r.Success? ==> r == GetMessages(db, requester, other)
    ensures r != GetMessages(db, requester, other) ==>
              requester.Some? && other in db.users && r == Failure(QueryFailed(AttributeError("objects")))
  {
    if requester.None? then Failure(LoginRequired)
    else if other !in db.users then Failure(NotFound)
    else
      match ManagerAttribute(DeclaredManagers, "objects")
      case Failure(e) => Failure(QueryFailed(e))
      case Success(_) => GetMessages(db, requester, other)
  }

  /** As written, once the other user exists `get_messages` always fails:
      `Message` has no `objects` manager. */
  lemma GetMessagesAsWrittenFails(db: Db, u: UserId, other: UserId)
    requires other in db.users
    ensures GetMessagesAsWritten(db, Some(u), other) == Failure(QueryFailed(AttributeError("objects")))
    ensures GetMessages(db, Some(u), other).Success?
  {
  }

  /** `unread_messages` as written: `Message.unread.unread_for_user(user)`,
      whose filter then names `is_read`. */
  function UnreadMessagesAsWritten(db: Db, requester: Option<UserId>): (r: Result<seq<Message>, ViewError>)
    ensures r.Success? ==> r == UnreadMessages(db, requester)
    ensures r != UnreadMessages(db, requester) ==>
              requester.Some? && r.Failure? && r.error.QueryFailed?
              && r.error.e in {AttributeError("unread"), FieldError("is_read")}
  {
    if requester.None? then Failure(LoginRequired)
    else
      var u := requester.value;
      match ManagerAttribute(DeclaredManagers, "unread")
      case Failure(e) => Failure(QueryFailed(e))
      case Success(_) =>
        match UnreadForUserAsWritten(db.messages, u)
        case Failure(e) => Failure(QueryFailed(e))
        case Success(rows) => Success(SortByTimestamp(rows, true))
  }

  /** As written, `unread_messages` always fails for a logged-in user: the
      manager is called `unread_messages`, not `unread`. */
  lemma UnreadMessagesAsWrittenFails(db: Db, u: UserId)
    ensures UnreadMessagesAsWritten(db, Some(u)) == Failure(QueryFailed(AttributeError("unread")))
    ensures UnreadMessages(db, Some(u)).Success?
  {
  }

  // ---------------------------------------------------------------------------
  // delete_user

  /** `delete_user(request)`: an authenticated user is deleted with the model's
      cascade and sent home; otherwise nothing changes and the answer is a
      redirect to login. */
  method DeleteUserView(store: Store, requester: Option<UserId>) returns (to: Redirect)
    requires store.Valid()
    modifies store
    ensures store.Valid()
    ensures requester == None ==> to == ToLogin && store.State() == old(store.State())
    ensures requester.Some? ==> to == ToHome && store.State() == DeleteUserRows(old(store.State()), requester.value)
  {
    if requester.Some? {
      store.DeleteUser(requester.value);
      return ToHome;
    }
    return ToLogin;
  }
}
