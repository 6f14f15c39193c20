/**
 * `generateMockMessages` (client/lib/mockMessages.ts): `count` fixture
 * messages for a room, one minute apart and ending one minute before `now`.
 * The ISO timestamp is kept as the millisecond value it is printed from.
 */
module MockMessages {
  import opened Wrappers
  import opened Text

  /** The author object the generator builds (its keys are `id` and `name`). */
  datatype MockAuthor = MockAuthor(id: string, name: string)

  datatype MockMessage = MockMessage(id: string, roomId: string, author: MockAuthor, content: string,
                                     createdAt: int, kind: string)

  const DefaultCount := 250
  const MinuteMs := 60000

  const ShippingText := "Shipping the chat UI shell today. Hooking sockets next!"
  const SleekText := "Looks sleek. Let's add unread badges and typing indicators."
  const RogerText := "Roger that. Also, support uploads + emoji."

  const MockMe := MockAuthor("me", "You")

  /** The author of message `i`. */
  function MockAuthorAt(i: nat): MockAuthor {
    if i % 3 == 0 then MockMe else MockAuthor("u2", if i % 2 == 1 then "Avi" else "Neha")
  }

  /** The content of message `i`. */
  function MockContentAt(i: nat): string {
    if i % 5 == 0 then ShippingText else if i % 2 == 1 then SleekText else RogerText
  }

  /** The `i`-th message the loop pushes. */
  function MockAt(roomId: string, count: int, now: int, i: nat): MockMessage {
    MockMessage(roomId + "-" + NatToString(i + 1), roomId, MockAuthorAt(i), MockContentAt(i),
                now - (count - i) * MinuteMs, "user")
  }

  /** How many messages the loop produces: `count`, defaulting to 250; none when it is not positive. */
  function MockCount(count: Option<int>): (n: nat)
    ensures count.None? ==> n == DefaultCount
    ensures count.Some? ==> n == if count.value > 0 then count.value else 0
  {
    var c := if count.Some? then count.value else DefaultCount;
    if c > 0 then c else 0
  }

  /** The loop: message `i` is `MockAt(.., i)`, for every `i` below the count. */
  method GenerateMockMessages(roomId: string, count: Option<int>, now: int) returns (msgs: seq<MockMessage>)
    ensures |msgs| == MockCount(count)
    ensures forall i :: 0 <= i < |msgs| ==> msgs[i] == MockAt(roomId, count.GetOr(DefaultCount), now, i)
  {
    var c := count.GetOr(DefaultCount);
    msgs := [];
    var i := 0;
    while i < c
      invariant i <= (if c > 0 then c else 0)
      invariant |msgs| == i
      invariant forall j :: 0 <= j < i ==> msgs[j] == MockAt(roomId, c, now, j)
    {
      var ts := now - (c - i) * MinuteMs;
      var mine := i % 3 == 0;
      var author := if mine then MockAuthor("me", "You")
                    else MockAuthor("u2", if i % 2 == 1 then "Avi" else "Neha");
      var content := if i % 5 == 0 then ShippingText
                     else if i % 2 == 1 then SleekText else RogerText;
      msgs := msgs + [MockMessage(roomId + "-" + NatToString(i + 1), roomId, author, content, ts, "user")];
      i := i + 1;
    }
  }

  /** Ids are distinct, and every message carries the room. */
  lemma MockIdsDistinct(roomId: string, count: int, now: int, i: nat, j: nat)
    requires i != j
    ensures MockAt(roomId, count, now, i).id != MockAt(roomId, count, now, j).id
    ensures MockAt(roomId, count, now, i).roomId == roomId
  {
    var p := roomId + "-";
    NatToStringInjective(i + 1, j + 1);
    var a, b := NatToString(i + 1), NatToString(j + 1);
    assert (p + a)[|p|..] == a;
    assert (p + b)[|p|..] == b;
  }

  /** Timestamps rise strictly, in 60 s steps, and the last one is 60 s before `now`. */
  lemma MockTimes(roomId: string, count: nat, now: int, i: nat, j: nat)
    requires i < j < count
    ensures MockAt(roomId, count, now, i + 1).createdAt == MockAt(roomId, count, now, i).createdAt + MinuteMs
    ensures MockAt(roomId, count, now, i).createdAt < MockAt(roomId, count, now, j).createdAt
    ensures MockAt(roomId, count, now, count - 1).createdAt == now - MinuteMs
  {
  }

  /** The author is me iff `i % 3 == 0`; otherwise u2, Avi for odd and Neha for even `i`. */
  lemma MockAuthors(i: nat)
    ensures MockAuthorAt(i) == MockMe <==> i % 3 == 0
    ensures i % 3 != 0 ==> MockAuthorAt(i).id == "u2" && (MockAuthorAt(i).name == "Avi" <==> i % 2 == 1)
  {
    assert MockMe.id != "u2";
  }
}
