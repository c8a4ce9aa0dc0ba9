/** Display helpers of the chats admin: the message preview column and the
    participant column. */
module ChatsAdmin {

  const PreviewLength: nat := 50
  const Ellipsis: string := "..."
  const Separator: string := ", "

  /** `MessageAdmin.get_message_preview`: bodies longer than fifty characters
      are cut to fifty and marked with an ellipsis. */
  function MessagePreview(body: string): (r: string)
    ensures |body| <= PreviewLength ==> r == body
    ensures |r| <= PreviewLength + |Ellipsis|
    ensures |body| > PreviewLength <==> |r| == PreviewLength + |Ellipsis|
    ensures var n := if |body| < PreviewLength then |body| else PreviewLength;
            n <= |r| && r[..n] == body[..n]
    ensures |body| > PreviewLength ==> r[PreviewLength..] == Ellipsis
  {
    if |body| > PreviewLength then body[..PreviewLength] + Ellipsis else body
  }

  /** Long bodies that share their first fifty characters have the same
      preview. */
  lemma PreviewDependsOnPrefix(a: string, b: string)
    requires |a| > PreviewLength && |b| > PreviewLength && a[..PreviewLength] == b[..PreviewLength]
    ensures MessagePreview(a) == MessagePreview(b)
  {
  }

  /** Previewing a preview changes nothing. */
  lemma PreviewIdempotent(body: string)
    ensures MessagePreview(MessagePreview(body)) == MessagePreview(body)
  {
    if |body| > PreviewLength {
      var r := MessagePreview(body);
      assert r[..PreviewLength] == body[..PreviewLength];
    }
  }

  datatype Participant = Participant(firstName: string, lastName: string)

  function FullName(p: Participant): string
  {
    p.firstName + " " + p.lastName
  }

  /** `s.endswith(t)`. */
  predicate EndsWith(s: string, t: string)
  {
    |t| <= |s| && s[|s| - |t|..] == t
  }

  /** `sep.join(parts)`. */
  function Join(sep: string, parts: seq<string>): (r: string)
    ensures parts == [] ==> r == ""
    ensures parts != [] ==> EndsWith(r, parts[|parts| - 1])
  {
    if parts == [] then ""
    else if |parts| == 1 then parts[0]
    else
      var rest := Join(sep, parts[1..]);
      var last := parts[|parts| - 1];
      assert parts[1..][|parts| - 2] == last;
      assert (parts[0] + sep + rest)[|parts[0] + sep + rest| - |last|..] == rest[|rest| - |last|..];
      parts[0] + sep + rest
  }

  function SumLengths(parts: seq<string>): nat
  {
    if parts == [] then 0 else |parts[0]| + SumLengths(parts[1..])
  }

  /** The length of a join of n parts is the parts' lengths plus n - 1
      separators. */
  lemma {:induction false} JoinLength(sep: string, parts: seq<string>)
    requires parts != []
    ensures |Join(sep, parts)| == SumLengths(parts) + (|parts| - 1) * |sep|
  {
    if |parts| > 1 {
      var rest := Join(sep, parts[1..]);
      JoinLength(sep, parts[1..]);
      assert Join(sep, parts) == parts[0] + sep + rest;
    }
  }

  /** A join starts with its first part, followed by the separator when more
      parts come. */
  lemma JoinStartsWithFirst(sep: string, parts: seq<string>)
    requires parts != []
    ensures |parts[0]| <= |Join(sep, parts)| && Join(sep, parts)[..|parts[0]|] == parts[0]
    ensures |parts| > 1 ==> Join(sep, parts)[..|parts[0]| + |sep|] == parts[0] + sep
  {
    if |parts| > 1 {
      assert Join(sep, parts) == parts[0] + sep + Join(sep, parts[1..]);
      assert (parts[0] + sep + Join(sep, parts[1..]))[..|parts[0]| + |sep|] == parts[0] + sep;
    }
  }

  /** Adding a part at the end adds one separator and that part. */
  lemma {:induction false} JoinSnoc(sep: string, parts: seq<string>, p: string)
    requires parts != []
    ensures Join(sep, parts + [p]) == Join(sep, parts) + sep + p
  {
    var q := parts + [p];
    if |parts| == 1 {
      assert q == [parts[0], p];
      JoinOfTwo(sep, parts[0], p);
    } else {
      assert q[0] == parts[0] && q[1..] == parts[1..] + [p];
      var x := parts[0] + sep;
      var y := Join(sep, parts[1..]);
      JoinSnoc(sep, parts[1..], p);
      assert Join(sep, q) == x + (y + sep + p);
      assert Join(sep, parts) == x + y;
      Reassociate(x, y + sep, p);
      Reassociate(x, y, sep);
    }
  }

  /** Joins of one, two and three parts written out. */
  lemma {:induction false} JoinUpToThree(sep: string, parts: seq<string>)
    requires 1 <= |parts| <= 3
    ensures |parts| == 1 ==> Join(sep, parts) == parts[0]
    ensures |parts| == 2 ==> Join(sep, parts) == parts[0] + sep + parts[1]
    ensures |parts| == 3 ==> Join(sep, parts) == parts[0] + sep + parts[1] + sep + parts[2]
  {
    if |parts| == 2 {
      assert parts == [parts[0], parts[1]];
      JoinOfTwo(sep, parts[0], parts[1]);
    } else if |parts| == 3 {
      assert parts == [parts[0], parts[1], parts[2]];
      JoinOfThree(sep, parts[0], parts[1], parts[2]);
    }
  }

  lemma {:induction false} JoinOfTwo(sep: string, a: string, b: string)
    ensures Join(sep, [a, b]) == a + sep + b
  {
    assert [a, b][1..] == [b];
  }

  lemma {:induction false} JoinOfThree(sep: string, a: string, b: string, c: string)
    ensures Join(sep, [a, b, c]) == a + sep + b + sep + c
  {
    assert [a, b, c][1..] == [b, c];
    JoinOfTwo(sep, b, c);
    assert Join(sep, [a, b, c]) == a + sep + (b + sep + c);
    Reassociate(a + sep, b + sep, c);
    Reassociate(a + sep, b, sep);
  }

  lemma Reassociate(x: string, y: string, z: string)
    ensures x + (y + z) == x + y + z
  {
  }

  function Min(a: nat, b: nat): nat
  {
    if a < b then a else b
  }

  function FullNames(ps: seq<Participant>): (names: seq<string>)
    ensures |names| == |ps|
    ensures forall i | 0 <= i < |ps| :: names[i] == FullName(ps[i])
  {
    seq(|ps|, i requires 0 <= i < |ps| => FullName(ps[i]))
  }

  /** `ConversationAdmin.get_participants`: the full names of the first three
      participants, joined by ", ". */
  function ParticipantList(ps: seq<Participant>): (r: string)
    ensures ps == [] ==> r == ""
    ensures |ps| == 1 ==> r == FullName(ps[0])
    ensures |ps| == 2 ==> r == FullName(ps[0]) + Separator + FullName(ps[1])
    ensures |ps| >= 3 ==> r == FullName(ps[0]) + Separator + FullName(ps[1]) + Separator + FullName(ps[2])
    ensures ps != [] ==>
              |r| == SumLengths(FullNames(ps[..Min(|ps|, 3)])) + (Min(|ps|, 3) - 1) * |Separator|
  {
    var names := FullNames(ps[..Min(|ps|, 3)]);
    if names == [] then ""
    else
      JoinLength(Separator, names);
      JoinUpToThree(Separator, names);
      Join(Separator, names)
  }

  /** Only the first three participants show: lists that agree on them give the
      same column. */
  lemma ParticipantsBeyondThreeIgnored(ps: seq<Participant>, qs: seq<Participant>)
    requires |ps| >= 3 && |qs| >= 3 && ps[..3] == qs[..3]
    ensures ParticipantList(ps) == ParticipantList(qs)
  {
  }
}
