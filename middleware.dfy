/** Request-gating middleware of the chats application: a per-IP sliding-window
    limit on chat messages (POST requests), a time-of-day gate, a role gate and
    client-IP extraction.  Time is whole seconds; the hour of day is 0..23.
    Passing a request on to the rest of the stack is the response `PassedOn`. */
module Middleware {
  import opened Wrappers
  import opened Seqs

  /** A point in time, in seconds. */
  type Time = int

  /** The hour of the current wall-clock time. */
  type Hour = h: int | 0 <= h < 24

  /** The key of the rate-limit log: the client address, or None when neither
      header is present (Python's `dict.get` then yields `None`). */
  type Ip = Option<string>

  /** Length of the sliding window, one minute. */
  const Window: int := 60

  /** Most chat messages accepted from one address within a window. */
  const MaxPostsPerWindow: nat := 5

  const LimitExceeded: string := "Message limit exceeded. Please wait before sending more messages."
  const OutsideHours: string := "Access denied"
  const InsufficientRole: string := "Access denied: insufficient permissions."

  const ForwardedForHeader: string := "HTTP_X_FORWARDED_FOR"
  const RemoteAddrHeader: string := "REMOTE_ADDR"

  /** `role` is None when the user object has no `role` attribute. */
  datatype User = Anonymous | Authenticated(role: Option<string>)

  /** `verb` is the HTTP method. */
  datatype Request = Request(verb: string, meta: map<string, string>, user: User)

  /** What a middleware does with a request: hand it on, or answer it itself
      with 403 Forbidden or 429 Too Many Requests. */
  datatype Response = PassedOn | Forbidden(reason: string) | TooManyRequests(error: string)

  // ---------------------------------------------------------------------------
  // Time of day

  /** `RestrictAccessByTimeMiddleware`: requests from 22:00 up to 06:00 are refused. */
  function RestrictAccessByTime(hour: Hour): (resp: Response)
    ensures resp == PassedOn <==> 6 <= hour <= 21
    ensures resp != PassedOn ==> resp == Forbidden(OutsideHours)
  {
    if hour >= 22 || hour < 6 then Forbidden(OutsideHours) else PassedOn
  }

  // ---------------------------------------------------------------------------
  // Roles

  const AllowedRoles: seq<string> := ["admin", "moderator"]

  /** `RolepermissionMiddleware`: anonymous users pass; authenticated users pass
      only with role `admin` or `moderator`. */
  function RolePermission(user: User): (resp: Response)
    ensures resp == PassedOn <==>
              user == Anonymous || user.role == Some("admin") || user.role == Some("moderator")
    ensures resp != PassedOn ==> resp == Forbidden(InsufficientRole)
  {
    if user.Authenticated? && (user.role.None? || user.role.value !in AllowedRoles)
    then Forbidden(InsufficientRole)
    else PassedOn
  }

  // ---------------------------------------------------------------------------
  // Client address

  /** The characters Python's `str.isspace` accepts, which `str.strip()` removes. */
  const Whitespace: set<char> := {
    '\U{0009}', '\U{000A}', '\U{000B}', '\U{000C}', '\U{000D}', '\U{001C}', '\U{001D}', '\U{001E}', '\U{001F}', '\U{0020}',
    '\U{0085}', '\U{00A0}', '\U{1680}', '\U{2000}', '\U{2001}', '\U{2002}', '\U{2003}', '\U{2004}', '\U{2005}', '\U{2006}',
    '\U{2007}', '\U{2008}', '\U{2009}', '\U{200A}', '\U{2028}', '\U{2029}', '\U{202F}', '\U{205F}', '\U{3000}'}

  predicate IsSpace(c: char)
  {
    c in Whitespace
  }

  /** `s.split(',')[0]`: everything before the first comma. */
  function FirstField(s: string): (r: string)
    ensures |r| <= |s| && r == s[..|r|]
    ensures ',' !in r
    ensures |r| < |s| ==> s[|r|] == ','
  {
    if s == [] || s[0] == ',' then [] else [s[0]] + FirstField(s[1..])
  }

  /** `s.lstrip()`. */
  function TrimLeft(s: string): (r: string)
    ensures |r| <= |s| && r == s[|s| - |r|..]
    ensures forall k | 0 <= k < |s| - |r| :: IsSpace(s[k])
    ensures r != [] ==> !IsSpace(r[0])
  {
    if s != [] && IsSpace(s[0]) then
      var r := TrimLeft(s[1..]);
      DropFirstSpace(s, s[1..], r);
      r
    else s
  }

  /** One step of `lstrip`: cutting a leading space keeps `r` a suffix of `s`
      preceded only by whitespace. */
  lemma DropFirstSpace(s: string, t: string, r: string)
    requires s != [] && IsSpace(s[0]) && t == s[1..]
    requires |r| <= |t| && r == t[|t| - |r|..]
    requires forall k | 0 <= k < |t| - |r| :: IsSpace(t[k])
    ensures |r| <= |s| && r == s[|s| - |r|..]
    ensures forall k | 0 <= k < |s| - |r| :: IsSpace(s[k])
  {
    forall k | 1 <= k < |s| - |r| ensures IsSpace(s[k]) {
      assert s[k] == t[k - 1];
    }
  }

  /** `s.rstrip()`. */
  function TrimRight(s: string): (r: string)
    ensures |r| <= |s| && r == s[..|r|]
    ensures forall k | |r| <= k < |s| :: IsSpace(s[k])
    ensures r != [] ==> !IsSpace(r[|r| - 1])
  {
    if s != [] && IsSpace(s[|s| - 1]) then
      var r := TrimRight(s[..|s| - 1]);
      DropLastSpace(s, s[..|s| - 1], r);
      r
    else s
  }

  /** One step of `rstrip`: cutting a trailing space keeps `r` a prefix of `s`
      followed only by whitespace. */
  lemma DropLastSpace(s: string, t: string, r: string)
    requires s != [] && IsSpace(s[|s| - 1]) && t == s[..|s| - 1]
    requires |r| <= |t| && r == t[..|r|]
    requires forall k | |r| <= k < |t| :: IsSpace(t[k])
    ensures |r| <= |s| && r == s[..|r|]
    ensures forall k | |r| <= k < |s| :: IsSpace(s[k])
  {
    forall k | |r| <= k < |s| - 1 ensures IsSpace(s[k]) {
      assert s[k] == t[k];
    }
  }

  /** `s.strip()`: `s` less its leading and trailing whitespace. */
  function Strip(s: string): (r: string)
    ensures r != [] ==> !IsSpace(r[0]) && !IsSpace(r[|r| - 1])
  {
    TrimRight(TrimLeft(s))
  }

  /** `r` is `s[i..j]`, and `s` has only whitespace before `i` and from `j` on. */
  predicate CutAt(s: string, i: int, j: int, r: string)
  {
    0 <= i <= j <= |s| && r == s[i..j]
    && (forall k | 0 <= k < i :: IsSpace(s[k]))
    && (forall k | j <= k < |s| :: IsSpace(s[k]))
  }

  /** What `strip` keeps: the slice of `s` left once every whitespace character
      at either end is cut. */
  lemma {:induction false} StripSlice(s: string)
    ensures exists i, j :: CutAt(s, i, j, Strip(s))
  {
    var l := TrimLeft(s);
    CutOfTrims(s, l, Strip(s));
  }

  /** A prefix `r` of a suffix `l` of `s`, where only whitespace was cut at
      each step, is a cut of `s`. */
  lemma CutOfTrims(s: string, l: string, r: string)
    requires |l| <= |s| && l == s[|s| - |l|..]
    requires forall k | 0 <= k < |s| - |l| :: IsSpace(s[k])
    requires |r| <= |l| && r == l[..|r|]
    requires forall k | |r| <= k < |l| :: IsSpace(l[k])
    ensures CutAt(s, |s| - |l|, |s| - |l| + |r|, r)
  {
    var i := |s| - |l|;
    forall k | i + |r| <= k < |s| ensures IsSpace(s[k]) {
      assert s[k] == l[k - i];
    }
  }

  /** Stripping only removes characters. */
  lemma {:induction false} StripWithin(s: string)
    ensures forall c | c in Strip(s) :: c in s
  {
    var l := TrimLeft(s);
    var r := TrimRight(l);
    assert Strip(s) == r;
    forall c | c in r ensures c in s {
      var k :| 0 <= k < |r| && r[k] == c;
      assert l[k] == c;
      assert s[|s| - |l| + k] == c;
    }
  }

  /** Leading whitespace makes no difference to `lstrip`. */
  lemma {:induction false} TrimLeftPadded(lead: string, x: string)
    requires forall k | 0 <= k < |lead| :: IsSpace(lead[k])
    ensures TrimLeft(lead + x) == TrimLeft(x)
  {
    if lead != [] {
      assert IsSpace(lead[0]) && (lead + x)[0] == lead[0];
      assert (lead + x)[1..] == lead[1..] + x;
      assert forall k | 0 <= k < |lead[1..]| :: lead[1..][k] == lead[k + 1];
      assert TrimLeft(lead + x) == TrimLeft((lead + x)[1..]);
      TrimLeftPadded(lead[1..], x);
    } else {
      assert lead + x == x;
    }
  }

  /** Trailing whitespace makes no difference to `rstrip`. */
  lemma {:induction false} TrimRightPadded(x: string, trail: string)
    requires forall k | 0 <= k < |trail| :: IsSpace(trail[k])
    ensures TrimRight(x + trail) == TrimRight(x)
  {
    if trail != [] {
      var init := trail[..|trail| - 1];
      assert IsSpace(trail[|trail| - 1]);
      assert (x + trail)[|x + trail| - 1] == trail[|trail| - 1];
      assert forall k | 0 <= k < |init| :: init[k] == trail[k];
      assert TrimRight(x + trail) == TrimRight((x + trail)[..|x + trail| - 1]);
      assert (x + trail)[..|x + trail| - 1] == x + init;
      TrimRightPadded(x, init);
    } else {
      assert x + trail == x;
    }
  }

  /** Stripping a value padded with whitespace on both sides gives the value
      back, when it has no whitespace at its own ends. */
  lemma {:induction false} StripPadded(lead: string, addr: string, trail: string)
    requires forall k | 0 <= k < |lead| :: IsSpace(lead[k])
    requires forall k | 0 <= k < |trail| :: IsSpace(trail[k])
    requires addr == [] || (!IsSpace(addr[0]) && !IsSpace(addr[|addr| - 1]))
    ensures Strip(lead + addr + trail) == addr
  {
    var tail := addr + trail;
    ConcatAssoc(lead, addr, trail);
    TrimLeftPadded(lead, tail);
    if addr == [] {
      ConcatEmpty(addr, trail);
      ConcatEmpty(trail, []);
      TrimLeftPadded(trail, []);
      assert TrimLeft(tail) == [];
    } else {
      assert tail[0] == addr[0];
      assert TrimLeft(tail) == tail;
      TrimRightPadded(addr, trail);
      assert TrimRight(addr) == addr;
    }
  }

  lemma ConcatAssoc(a: string, b: string, c: string)
    ensures a + b + c == a + (b + c)
  {
  }

  lemma ConcatEmpty(a: string, b: string)
    ensures a == [] ==> a + b == b
    ensures b == [] ==> a + b == a
  {
  }

  function Lookup(meta: map<string, string>, key: string): Option<string>
  {
    if key in meta then Some(meta[key]) else None
  }

  /** `get_client_ip`: the first hop of a non-empty `X-Forwarded-For`, stripped;
      otherwise `REMOTE_ADDR` (None when that is absent too). */
  function ClientIp(meta: map<string, string>): (ip: Ip)
    ensures Lookup(meta, ForwardedForHeader) !in {None, Some("")} ==>
              ip == Some(Strip(FirstField(meta[ForwardedForHeader])))
              && ',' !in ip.value
              && (forall c | c in ip.value :: c in meta[ForwardedForHeader])
              && (ip.value != [] ==> !IsSpace(ip.value[0]) && !IsSpace(ip.value[|ip.value| - 1]))
    ensures Lookup(meta, ForwardedForHeader) in {None, Some("")} ==> ip == Lookup(meta, RemoteAddrHeader)
  {
    var forwarded := Lookup(meta, ForwardedForHeader);
    if forwarded.Some? && forwarded.value != "" then
      var first := FirstField(forwarded.value);
      StripWithin(first);
      assert forall c | c in first :: c in forwarded.value;
      Some(Strip(first))
    else
      Lookup(meta, RemoteAddrHeader)
  }

  /** The forwarded-for list `lead + addr + trail + rest`, with `addr` between
      whitespace padding and the rest of the list starting at a comma, yields
      `addr`, whatever hops follow and whatever `REMOTE_ADDR` says. */
  lemma {:induction false} ClientIpFirstHop(meta: map<string, string>, lead: string, addr: string, trail: string, rest: string)
    requires forall k | 0 <= k < |lead| :: IsSpace(lead[k])
    requires forall k | 0 <= k < |trail| :: IsSpace(trail[k])
    requires ',' !in addr
    requires addr == [] || (!IsSpace(addr[0]) && !IsSpace(addr[|addr| - 1]))
    requires rest == [] || rest[0] == ','
    requires ForwardedForHeader in meta && meta[ForwardedForHeader] == lead + addr + trail + rest
    requires meta[ForwardedForHeader] != ""
    ensures ClientIp(meta) == Some(addr)
  {
    var hop := lead + addr + trail;
    assert ',' !in hop by {
      assert !IsSpace(',');
      forall k | 0 <= k < |hop| ensures hop[k] != ',' {
        if k < |lead| {
          assert hop[k] == lead[k];
        } else if k < |lead| + |addr| {
          assert hop[k] == addr[k - |lead|];
        } else {
          assert hop[k] == trail[k - |lead| - |addr|];
        }
      }
    }
    assert meta[ForwardedForHeader] == hop + rest;
    FirstFieldPrefix(hop, rest);
    StripPadded(lead, addr, trail);
  }

  /** A first hop with spaces on both sides, followed by a second hop. */
  lemma ClientIpPaddedExample()
    ensures ClientIp(map[ForwardedForHeader := " 10.0.0.1 ,10.0.0.2"]) == Some("10.0.0.1")
  {
    var meta := map[ForwardedForHeader := " 10.0.0.1 ,10.0.0.2"];
    assert meta[ForwardedForHeader] == " " + "10.0.0.1" + " " + ",10.0.0.2";
    ClientIpFirstHop(meta, " ", "10.0.0.1", " ", ",10.0.0.2");
  }

  lemma {:induction false} FirstFieldPrefix(addr: string, rest: string)
    requires ',' !in addr
    requires rest == [] || rest[0] == ','
    ensures FirstField(addr + rest) == addr
  {
    if addr == [] {
      assert addr + rest == rest;
    } else {
      assert (addr + rest)[0] == addr[0];
      assert (addr + rest)[1..] == addr[1..] + rest;
      FirstFieldPrefix(addr[1..], rest);
    }
  }

  // ---------------------------------------------------------------------------
  // Sliding-window rate limit

  /** The timestamps still inside the window at `now`: strictly later than one
      minute ago, in their original order. */
  function Prune(ts: seq<Time>, now: Time): (r: seq<Time>)
    ensures forall t :: t in r <==> t in ts && t > now - Window
    ensures |r| <= |ts|
  {
    Filter(ts, t => t > now - Window)
  }

  /** Pruning keeps order: the survivors of `a + b` are those of `a`, then those of `b`. */
  lemma PruneConcat(a: seq<Time>, b: seq<Time>, now: Time)
    ensures Prune(a + b, now) == Prune(a, now) + Prune(b, now)
  {
    FilterConcat(a, b, t => t > now - Window);
  }

  /** Pruning at an earlier time and then at a later one is the same as pruning
      at the later one. */
  lemma {:induction false} PruneLater(ts: seq<Time>, earlier: Time, later: Time)
    requires earlier <= later
    ensures Prune(Prune(ts, earlier), later) == Prune(ts, later)
  {
    if ts != [] {
      assert ts == [ts[0]] + ts[1..];
      PruneConcat([ts[0]], ts[1..], earlier);
      PruneConcat([ts[0]], ts[1..], later);
      PruneConcat(Prune([ts[0]], earlier), Prune(ts[1..], earlier), later);
      PruneLater(ts[1..], earlier, later);
    }
  }

  /** The outcome of a POST for one address: the address's new list and whether
      the message was accepted. */
  datatype Admission = Admission(kept: seq<Time>, accepted: bool)

  /** One POST from an address whose list is `ts`: prune, refuse once five
      remain, otherwise record `now`. */
  function AdmitPost(ts: seq<Time>, now: Time): (a: Admission)
    ensures a.accepted <==> |Prune(ts, now)| < MaxPostsPerWindow
    ensures a.kept == if a.accepted then Prune(ts, now) + [now] else Prune(ts, now)
    ensures |ts| <= MaxPostsPerWindow ==> |a.kept| <= MaxPostsPerWindow
  {
    var kept := Prune(ts, now);
    if |kept| >= MaxPostsPerWindow then Admission(kept, false) else Admission(kept + [now], true)
  }

  /** No address has more than five timestamps on record. */
  ghost predicate Bounded(log: map<Ip, seq<Time>>)
  {
    forall ip | ip in log :: |log[ip]| <= MaxPostsPerWindow
  }

  /** An address's list, empty when it has none yet. */
  function History(log: map<Ip, seq<Time>>, ip: Ip): seq<Time>
  {
    if ip in log then log[ip] else []
  }

  class OffensiveLanguageMiddleware {
    /** The class-level `ip_message_log`: the accepted POST times per address. */
    var ipMessageLog: map<Ip, seq<Time>>

    ghost predicate Valid()
      reads this
    {
      Bounded(ipMessageLog)
    }

    constructor ()
      ensures Valid() && ipMessageLog == map[]
    {
      ipMessageLog := map[];
    }

    /** `OffensiveLanguageMiddleware.__call__` at time `now`. */
    method Call(request: Request, now: Time) returns (resp: Response)
      requires Valid()
      modifies this
      ensures Valid()
      ensures request.verb != "POST" ==> ipMessageLog == old(ipMessageLog) && resp == PassedOn
      ensures request.verb == "POST" ==>
                var ip := ClientIp(request.meta);
                var a := AdmitPost(History(old(ipMessageLog), ip), now);
                && ipMessageLog == old(ipMessageLog)[ip := a.kept]
                && resp == (if a.accepted then PassedOn else TooManyRequests(LimitExceeded))
      ensures forall other | other != ClientIp(request.meta) ::
                (other in ipMessageLog <==> other in old(ipMessageLog))
                && (other in ipMessageLog ==> ipMessageLog[other] == old(ipMessageLog)[other])
    {
      if request.verb == "POST" {
        var ip := ClientIp(request.meta);
        ghost var before := ipMessageLog;
        ghost var a := AdmitPost(History(before, ip), now);
        if ip !in ipMessageLog {
          ipMessageLog := ipMessageLog[ip := []];
        }
        ipMessageLog := ipMessageLog[ip := Prune(ipMessageLog[ip], now)];
        assert ipMessageLog == before[ip := Prune(History(before, ip), now)];
        if |ipMessageLog[ip]| >= MaxPostsPerWindow {
          assert !a.accepted && ipMessageLog == before[ip := a.kept];
          return TooManyRequests(LimitExceeded);
        }
        ipMessageLog := ipMessageLog[ip := ipMessageLog[ip] + [now]];
        assert a.accepted && ipMessageLog == before[ip := a.kept];
      }
      resp := PassedOn;
    }
  }

  // ---------------------------------------------------------------------------
  // The guarantee over a run of POSTs from one address

  function Last(times: seq<Time>): Time
    requires times != []
  {
    times[|times| - 1]
  }

  predicate NonDecreasing(times: seq<Time>)
  {
    forall i, j | 0 <= i < j < |times| :: times[i] <= times[j]
  }

  /** The address's list after POSTs at `times`, starting from no entry. */
  function Run(times: seq<Time>): seq<Time>
  {
    if times == [] then [] else AdmitPost(Run(times[..|times| - 1]), Last(times)).kept
  }

  /** The times of the POSTs among `times` that were accepted. */
  function Accepted(times: seq<Time>): seq<Time>
  {
    if times == [] then []
    else
      var init := times[..|times| - 1];
      if AdmitPost(Run(init), Last(times)).accepted then Accepted(init) + [Last(times)] else Accepted(init)
  }

  /** With a clock that does not run backwards, the stored list is exactly the
      accepted POSTs of the last minute. */
  lemma {:induction false} RunIsRecentAccepted(times: seq<Time>)
    requires NonDecreasing(times) && times != []
    ensures Run(times) == Prune(Accepted(times), Last(times))
  {
    var init := times[..|times| - 1];
    var now := Last(times);
    if init != [] {
      assert NonDecreasing(init);
      assert Last(init) <= now;
      RunIsRecentAccepted(init);
      PruneLater(Accepted(init), Last(init), now);
    }
    if AdmitPost(Run(init), now).accepted {
      PruneConcat(Accepted(init), [now], now);
    }
  }

  /** The rate limit itself: a POST is accepted exactly when fewer than five
      earlier POSTs from the same address were accepted in the preceding
      minute, so no minute ending at a request holds more than five. */
  lemma RateLimit(times: seq<Time>)
    requires NonDecreasing(times) && times != []
    ensures var init := times[..|times| - 1];
            AdmitPost(Run(init), Last(times)).accepted
            <==> |Prune(Accepted(init), Last(times))| < MaxPostsPerWindow
    ensures |Prune(Accepted(times), Last(times))| <= MaxPostsPerWindow
  {
    var init := times[..|times| - 1];
    if init != [] {
      assert NonDecreasing(init);
      RunIsRecentAccepted(init);
      PruneLater(Accepted(init), Last(init), Last(times));
    }
    RunIsRecentAccepted(times);
    RunBounded(times);
  }

  lemma {:induction false} RunBounded(times: seq<Time>)
    ensures |Run(times)| <= MaxPostsPerWindow
  {
    if times != [] {
      RunBounded(times[..|times| - 1]);
    }
  }
}
