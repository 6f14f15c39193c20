/**
 * Room presence over Redis keys (server/internal/presence/presence.go).
 * `Touch` writes the key `presence:<room>:<user>`; `List` gathers every key
 * a SCAN of `presence:<room>:*` returns and keeps what follows each key's
 * last ':'. Redis itself is left out: the SCAN replies are given, in call
 * order, as a sequence, and the key's TTL is not modelled.
 */
module Presence {
  import opened Wrappers
  import opened Text

  const KeyPrefix := "presence:"

  /** The key `Touch` sets for a user in a room. */
  function TouchKey(roomId: string, userId: string): (k: string)
    ensures HasPrefix(k, KeyPrefix + roomId + ":")
    ensures |k| == |KeyPrefix| + |roomId| + 1 + |userId|
  {
    KeyPrefix + roomId + ":" + userId
  }

  /** The SCAN match pattern `List` uses; a `Touch` key of the room starts with its literal part. */
  function ScanPattern(roomId: string): (p: string)
    ensures p == KeyPrefix + roomId + ":" + "*"
    ensures forall u :: HasPrefix(TouchKey(roomId, u), p[..|p| - 1])
  {
    KeyPrefix + roomId + ":*"
  }

  // ---------------------------------------------------------------- one key

  /** What a key contributes: the non-empty text after its last ':', if it has one. */
  function UserOfKey(k: string): (u: Option<string>)
    ensures u.Some? <==> 0 <= LastIndexOf(k, ':') < |k| - 1
    ensures u.Some? ==> u.value != "" && ':' !in u.value && k == k[..LastIndexOf(k, ':') + 1] + u.value
  {
    var last := LastIndexOf(k, ':');
    if last >= 0 && last + 1 < |k| then
      assert k == k[..last + 1] + k[last + 1..];
      Some(k[last + 1..])
    else None
  }

  /** The backward scan for the last ':' in a key; -1 when there is none. */
  method LastColon(k: string) returns (last: int)
    ensures last == LastIndexOf(k, ':')
  {
    last := -1;
    var i := |k| - 1;
    while i >= 0
      invariant -1 <= i < |k|
      invariant forall j :: i < j < |k| ==> k[j] != ':'
      decreases i
    {
      if k[i] == ':' {
        last := i;
        break;
      }
      i := i - 1;
    }
    LastIndexOfAt(k, ':', last);
  }

  /** Round trip: a non-empty user id without ':' comes back out of its `Touch` key. */
  lemma TouchKeyRoundTrip(roomId: string, userId: string)
    requires userId != "" && ':' !in userId
    ensures UserOfKey(TouchKey(roomId, userId)) == Some(userId)
  {
    var k := TouchKey(roomId, userId);
    var c := |KeyPrefix| + |roomId|;
    assert k[c] == ':';
    forall j | c < j < |k|
      ensures k[j] != ':'
    {
      assert k[j] == userId[j - c - 1];
    }
    LastIndexOfAt(k, ':', c);
    assert k[c + 1..] == userId;
  }

  // ---------------------------------------------------------------- all keys

  /** The users the keys yield, in key order. */
  function UsersOfKeys(keys: seq<string>): (out: seq<string>)
    ensures |out| <= |keys|
  {
    if keys == [] then []
    else
      var rest := UsersOfKeys(keys[1..]);
      match UserOfKey(keys[0])
      case Some(u) => [u] + rest
      case None => rest
  }

  /** The output is built key by key: the users of `a + b` are those of `a`, then those of `b`. */
  lemma {:induction false} UsersOfKeysAppend(a: seq<string>, b: seq<string>)
    ensures UsersOfKeys(a + b) == UsersOfKeys(a) + UsersOfKeys(b)
  {
    if a == [] {
      assert a + b == b;
    } else {
      assert (a + b)[0] == a[0];
      assert (a + b)[1..] == a[1..] + b;
      UsersOfKeysAppend(a[1..], b);
    }
  }

  /** Every output comes from some key, as the text after its last ':'. */
  lemma {:induction false} UsersOfKeysFrom(keys: seq<string>, i: nat)
    requires i < |UsersOfKeys(keys)|
    ensures exists j :: 0 <= j < |keys| && UserOfKey(keys[j]) == Some(UsersOfKeys(keys)[i])
  {
    var rest := UsersOfKeys(keys[1..]);
    if UserOfKey(keys[0]).Some? && i == 0 {
      assert UserOfKey(keys[0]) == Some(UsersOfKeys(keys)[0]);
    } else {
      var i' := if UserOfKey(keys[0]).Some? then i - 1 else i;
      assert UsersOfKeys(keys)[i] == rest[i'];
      UsersOfKeysFrom(keys[1..], i');
      var j :| 0 <= j < |keys[1..]| && UserOfKey(keys[1..][j]) == Some(rest[i']);
      assert keys[j + 1] == keys[1..][j];
    }
  }

  /** The second loop of `List`: one pass over the keys, appending each key's user. */
  method ExtractUsers(keys: seq<string>) returns (out: seq<string>)
    ensures out == UsersOfKeys(keys)
  {
    out := [];
    var n := 0;
    while n < |keys|
      invariant n <= |keys|
      invariant out == UsersOfKeys(keys[..n])
    {
      assert keys[..n + 1] == keys[..n] + [keys[n]];
      UsersOfKeysAppend(keys[..n], [keys[n]]);
      out := AppendUser(out, keys[n]);
      n := n + 1;
    }
    assert keys[..n] == keys;
  }

  /** One step of that loop: the key's user, when it has one, goes at the end. */
  method AppendUser(out: seq<string>, k: string) returns (out': seq<string>)
    ensures out' == out + UsersOfKeys([k])
  {
    var last := LastColon(k);
    assert [k][1..] == [];
    out' := out;
    if last >= 0 && last + 1 < |k| {
      out' := out + [k[last + 1..]];
    }
  }

  // ---------------------------------------------------------------- the scan

  /** One SCAN reply: a page of keys and the cursor for the next call. */
  datatype Page = Page(keys: seq<string>, next: nat)

  /** A reply that ends the scan: an error, or the cursor 0. */
  predicate Ends(reply: Result<Page>) {
    reply.Err? || reply.value.next == 0
  }

  /** The replies are enough to finish the scan. */
  predicate Finishes(replies: seq<Result<Page>>) {
    exists i :: 0 <= i < |replies| && Ends(replies[i])
  }

  /** Index of the reply that ends the scan. */
  function LastCall(replies: seq<Result<Page>>): (n: nat)
    requires Finishes(replies)
    ensures n < |replies| && Ends(replies[n])
    ensures forall j :: 0 <= j < n ==> !Ends(replies[j])
  {
    if Ends(replies[0]) then 0
    else
      assert Finishes(replies[1..]) by {
        var i :| 0 <= i < |replies| && Ends(replies[i]);
        assert replies[1..][i - 1] == replies[i];
      }
      1 + LastCall(replies[1..])
  }

  /** The keys of the first `n` replies, page after page. */
  function PageKeys(replies: seq<Result<Page>>, n: nat): (keys: seq<string>)
    requires n <= |replies| && forall j :: 0 <= j < n ==> replies[j].Ok?
  {
    if n == 0 then [] else PageKeys(replies, n - 1) + replies[n - 1].value.keys
  }

  /** What `List` returns for the given replies: the first error, or the users of every page's keys. */
  function ListResult(replies: seq<Result<Page>>): (r: Result<seq<string>>)
    requires Finishes(replies)
    ensures r.Err? <==> exists j :: 0 <= j <= LastCall(replies) && replies[j].Err?
    ensures r.Ok? ==> |r.value| <= |PageKeys(replies, LastCall(replies) + 1)|
  {
    var n := LastCall(replies);
    if replies[n].Err? then Err(replies[n].error)
    else Ok(UsersOfKeys(PageKeys(replies, n + 1)))
  }

  /**
   * `List`: calls SCAN, appending each page's keys, until the cursor comes
   * back 0 (or an error ends it), then extracts the users.
   */
  method List(replies: seq<Result<Page>>) returns (r: Result<seq<string>>)
    requires Finishes(replies)
    ensures r == ListResult(replies)
  {
    var cursor := 0;
    var keys := [];
    var call := 0;
    var stop := LastCall(replies);
    while true
      invariant call <= stop
      invariant keys == PageKeys(replies, call)
      decreases stop - call
    {
      var reply := replies[call];
      if reply.Err? {
        return Err(reply.error);
      }
      keys := keys + reply.value.keys;
      cursor := reply.value.next;
      if cursor == 0 {
        break;
      }
      call := call + 1;
    }
    var out := ExtractUsers(keys);
    r := Ok(out);
  }

  /** The ending reply is the one `LastCall` finds. */
  lemma LastCallIs(replies: seq<Result<Page>>, n: nat)
    requires n < |replies| && Ends(replies[n])
    requires forall j :: 0 <= j < n ==> !Ends(replies[j])
    ensures Finishes(replies) && LastCall(replies) == n
  {
  }

  lemma {:induction false} PageKeysPrefix(replies: seq<Result<Page>>, more: seq<Result<Page>>, n: nat)
    requires n <= |replies| && forall j :: 0 <= j < n ==> replies[j].Ok?
    ensures PageKeys(replies + more, n) == PageKeys(replies, n)
  {
    if n > 0 {
      PageKeysPrefix(replies, more, n - 1);
      assert (replies + more)[n - 1] == replies[n - 1];
    }
  }

  /** The scan stops at the first ending reply: whatever the server would answer afterwards is never read. */
  lemma ListStops(replies: seq<Result<Page>>, more: seq<Result<Page>>)
    requires Finishes(replies)
    ensures Finishes(replies + more) && ListResult(replies + more) == ListResult(replies)
  {
    var n := LastCall(replies);
    var all := replies + more;
    assert all[n] == replies[n];
    forall j | 0 <= j < n
      ensures !Ends(all[j])
    {
      assert all[j] == replies[j];
    }
    LastCallIs(all, n);
    if replies[n].Ok? {
      PageKeysPrefix(replies, more, n + 1);
    }
  }
}
