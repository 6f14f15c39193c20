/**
 * The timeline row builder (client/components/messages/MessageList.tsx):
 * `buildRows` turns the messages into day dividers, an optional "new"
 * marker and message rows whose header is hidden inside a 5-minute run of
 * the same author; `MessageList` builds no rows at all without a `meId`.
 *
 * date-fns is abstract: `isSameDay` compares an uninterpreted day key of the
 * integer timestamps, `fmtDay` is an uninterpreted label, and
 * `encodeURIComponent` an uninterpreted encoder.
 */
module MessageList {
  import opened Wrappers
  import opened Text

  /** The fields of a message the rows read; an absent author id or username is "". */
  datatype Message = Message(id: string, authorId: string, username: string, createdAt: int)

  datatype Env = Env(dayKey: int -> int, fmtDay: int -> string, encode: string -> string)

  datatype Row =
    | Day(id: string, dayLabel: string)
    | New(id: string)
    | Msg(id: string, msg: Message, mine: bool, showHeader: bool, avatarUrl: Option<string>)

  const GroupMs := 5 * 60 * 1000
  const AvatarBase := "https://api.dicebear.com/7.x/initials/svg?seed="
  const AvatarStyle := "&backgroundType=gradientLinear"

  /** `normId`: trimmed, then lower-cased. */
  function NormId(v: string): (r: string)
    ensures |r| <= |v|
  {
    Lower(JsTrim(v))
  }

  /** `sameAuthor`: both raw author ids are non-empty and their normal forms agree. */
  predicate SameAuthor(a: Message, b: Message) {
    a.authorId != "" && b.authorId != "" && NormId(a.authorId) == NormId(b.authorId)
  }

  /** `within`: the timestamps differ by strictly less than `ms`. */
  predicate Within(a: int, b: int, ms: int) {
    (if a - b >= 0 then a - b else b - a) < ms
  }

  /** `avatarFor`: a URL seeded with the encoded seed, or with "user" when the seed is empty. */
  function AvatarFor(seedLike: string, env: Env): string {
    AvatarBase + env.encode(if seedLike != "" then seedLike else "user") + AvatarStyle
  }

  /** Only other people's messages carry an avatar, seeded by the username or else the author id. */
  function AvatarUrl(m: Message, mine: bool, env: Env): (r: Option<string>)
    ensures r.Some? <==> !mine
  {
    if !mine then Some(AvatarFor(if m.username != "" then m.username else m.authorId, env)) else None
  }

  /** Whether message `i` starts a new day (the first message always does). */
  predicate NewDay(ms: seq<Message>, i: nat, env: Env)
    requires i < |ms|
  {
    i == 0 || env.dayKey(ms[i - 1].createdAt) != env.dayKey(ms[i].createdAt)
  }

  /** Whether message `i` continues the previous message's run. */
  predicate Grouped(ms: seq<Message>, i: nat)
    requires i < |ms|
  {
    i > 0 && SameAuthor(ms[i - 1], ms[i]) && Within(ms[i - 1].createdAt, ms[i].createdAt, GroupMs)
  }

  /** The day divider pushed before message `i`, if any. */
  function DayRows(ms: seq<Message>, i: nat, env: Env): seq<Row>
    requires i < |ms|
  {
    if NewDay(ms, i, env) then [Day("day-" + ms[i].id, env.fmtDay(ms[i].createdAt))] else []
  }

  /** The "new" marker pushed before message `m`, if it is the anchor. */
  function NewRows(m: Message, anchor: string): seq<Row> {
    if anchor != "" && m.id == anchor then [New("new-" + m.id)] else []
  }

  /** The message row of message `i`; `me` is the normalised `meId`. */
  function MsgRow(ms: seq<Message>, i: nat, me: string, env: Env): (r: Row)
    requires i < |ms|
    ensures r.Msg? && r.id == ms[i].id && r.msg == ms[i]
  {
    var m := ms[i];
    var mine := NormId(m.authorId) == me;
    Msg(m.id, m, mine, !Grouped(ms, i), AvatarUrl(m, mine, env))
  }

  /** The rows one loop iteration pushes for message `i`. */
  function RowsAt(ms: seq<Message>, i: nat, me: string, anchor: string, env: Env): (r: seq<Row>)
    requires i < |ms|
    ensures 1 <= |r| <= 3
  {
    DayRows(ms, i, env) + NewRows(ms[i], anchor) + [MsgRow(ms, i, me, env)]
  }

  /** Message `i`'s rows end in its message row. */
  lemma RowsAtEnd(ms: seq<Message>, i: nat, me: string, anchor: string, env: Env)
    requires i < |ms|
    ensures var r := RowsAt(ms, i, me, anchor, env); r[|r| - 1] == MsgRow(ms, i, me, env)
  {
  }

  /** Message `i`'s rows carry exactly message `i`. */
  lemma RowsAtLast(ms: seq<Message>, i: nat, me: string, anchor: string, env: Env)
    requires i < |ms|
    ensures MsgsOf(RowsAt(ms, i, me, anchor, env)) == [ms[i]]
  {
    var d := DayRows(ms, i, env);
    var n := NewRows(ms[i], anchor);
    MsgsOfAppend(d, n);
    MsgsOfAppend(d + n, [MsgRow(ms, i, me, env)]);
    assert MsgsOf(d) == [] by { if d != [] { assert d[..0] == []; } }
    assert MsgsOf(n) == [] by { if n != [] { assert n[..0] == []; } }
    assert [MsgRow(ms, i, me, env)][..0] == [];
  }

  /** `mine` holds exactly when the normalised author id is the normalised `meId`. */
  lemma RowsAtMine(ms: seq<Message>, i: nat, me: string, anchor: string, env: Env)
    requires i < |ms|
    ensures var r := RowsAt(ms, i, me, anchor, env);
      r[|r| - 1].mine <==> NormId(ms[i].authorId) == me
  {
  }

  /**
   * The header is hidden exactly when a previous message exists with the
   * same non-empty author id after normalisation, less than 5 minutes away.
   */
  lemma RowsAtHeader(ms: seq<Message>, i: nat, me: string, anchor: string, env: Env)
    requires i < |ms|
    ensures var r := RowsAt(ms, i, me, anchor, env);
      !r[|r| - 1].showHeader <==>
        i > 0 && ms[i - 1].authorId != "" && ms[i].authorId != "" &&
        NormId(ms[i - 1].authorId) == NormId(ms[i].authorId) &&
        (if ms[i - 1].createdAt >= ms[i].createdAt then ms[i - 1].createdAt - ms[i].createdAt
         else ms[i].createdAt - ms[i - 1].createdAt) < 300000
  {
  }

  /** Only rows that are not mine carry an avatar, seeded by the username or else the author id. */
  lemma RowsAtAvatar(ms: seq<Message>, i: nat, me: string, anchor: string, env: Env)
    requires i < |ms|
    ensures var r := RowsAt(ms, i, me, anchor, env); var last := r[|r| - 1];
      (last.avatarUrl.Some? <==> NormId(ms[i].authorId) != me) &&
      (last.avatarUrl.Some? ==>
        last.avatarUrl.value == AvatarFor(if ms[i].username != "" then ms[i].username else ms[i].authorId, env))
  {
  }

  /** A day divider opens the rows exactly when message `i` starts a new day. */
  lemma RowsAtDay(ms: seq<Message>, i: nat, me: string, anchor: string, env: Env)
    requires i < |ms|
    ensures var r := RowsAt(ms, i, me, anchor, env);
      (r[0].Day? <==> NewDay(ms, i, env)) &&
      (r[0].Day? ==> r[0] == Day("day-" + ms[i].id, env.fmtDay(ms[i].createdAt)))
  {
  }

  /** A "new" marker stands right before the message row exactly when the message is the anchor. */
  lemma RowsAtNew(ms: seq<Message>, i: nat, me: string, anchor: string, env: Env)
    requires i < |ms|
    ensures var r := RowsAt(ms, i, me, anchor, env);
      ((|r| >= 2 && r[|r| - 2].New?) <==> (anchor != "" && ms[i].id == anchor)) &&
      (|r| >= 2 && r[|r| - 2].New? ==> r[|r| - 2] == New("new-" + ms[i].id)) &&
      |r| == 1 + (if NewDay(ms, i, env) then 1 else 0) + (if anchor != "" && ms[i].id == anchor then 1 else 0)
  {
  }

  /** The messages carried by the message rows, in order. */
  function MsgsOf(rows: seq<Row>): seq<Message> {
    if rows == [] then []
    else MsgsOf(rows[..|rows| - 1]) + (if rows[|rows| - 1].Msg? then [rows[|rows| - 1].msg] else [])
  }

  lemma {:induction false} MsgsOfAppend(a: seq<Row>, b: seq<Row>)
    ensures MsgsOf(a + b) == MsgsOf(a) + MsgsOf(b)
    decreases |b|
  {
    if b == [] {
      assert a + b == a;
    } else {
      assert (a + b)[..|a + b| - 1] == a + b[..|b| - 1];
      MsgsOfAppend(a, b[..|b| - 1]);
    }
  }

  /** Concatenation of row blocks, one block per loop iteration. */
  function Flatten(bs: seq<seq<Row>>): seq<Row> {
    if bs == [] then [] else Flatten(bs[..|bs| - 1]) + bs[|bs| - 1]
  }

  lemma FlattenSnoc(bs: seq<seq<Row>>, i: nat)
    requires i < |bs|
    ensures Flatten(bs[..i + 1]) == Flatten(bs[..i]) + bs[i]
  {
    assert bs[..i + 1][..i] == bs[..i];
  }

  /** The rows of the first `i` blocks are a prefix of all the rows. */
  lemma {:induction false} FlattenPrefix(bs: seq<seq<Row>>, i: nat)
    requires i <= |bs|
    ensures |Flatten(bs[..i])| <= |Flatten(bs)|
    ensures Flatten(bs)[..|Flatten(bs[..i])|] == Flatten(bs[..i])
    decreases |bs| - i
  {
    if i == |bs| {
      assert bs[..i] == bs;
    } else {
      FlattenPrefix(bs, i + 1);
      FlattenSnoc(bs, i);
      var a := Flatten(bs[..i]);
      var b := Flatten(bs[..i + 1]);
      assert b[..|a|] == a;
      assert Flatten(bs)[..|a|] == Flatten(bs)[..|b|][..|a|];
    }
  }

  /** Block `i` sits right after the rows of the blocks before it. */
  lemma FlattenBlock(bs: seq<seq<Row>>, i: nat)
    requires i < |bs|
    ensures |Flatten(bs[..i])| + |bs[i]| <= |Flatten(bs)|
    ensures Flatten(bs)[|Flatten(bs[..i])|..|Flatten(bs[..i])| + |bs[i]|] == bs[i]
  {
    FlattenPrefix(bs, i + 1);
    FlattenSnoc(bs, i);
    var a := Flatten(bs[..i]);
    var b := Flatten(bs[..i + 1]);
    assert Flatten(bs)[|a|..|a| + |bs[i]|] == b[|a|..];
  }

  /** When every block carries exactly its own message, the rows carry all the messages in order. */
  lemma {:induction false} MsgsOfFlatten(bs: seq<seq<Row>>, ms: seq<Message>)
    requires |bs| == |ms|
    requires forall i :: 0 <= i < |bs| ==> MsgsOf(bs[i]) == [ms[i]]
    ensures MsgsOf(Flatten(bs)) == ms
  {
    if bs != [] {
      var n := |bs| - 1;
      MsgsOfFlatten(bs[..n], ms[..n]);
      MsgsOfAppend(Flatten(bs[..n]), bs[n]);
      assert ms == ms[..n] + [ms[n]];
    }
  }

  /** The blocks `f(0)`, ..., `f(k - 1)`. */
  function Tabulate(k: nat, f: nat -> seq<Row>): (bs: seq<seq<Row>>)
    ensures |bs| == k
  {
    if k == 0 then [] else Tabulate(k - 1, f) + [f(k - 1)]
  }

  lemma {:induction false} TabulateAt(k: nat, f: nat -> seq<Row>, j: nat)
    requires j < k
    ensures Tabulate(k, f)[j] == f(j)
    ensures Tabulate(k, f)[..j] == Tabulate(j, f)
  {
    if j < k - 1 {
      TabulateAt(k - 1, f, j);
      var bs := Tabulate(k - 1, f);
      assert (bs + [f(k - 1)])[..j] == bs[..j];
    } else {
      assert (Tabulate(k - 1, f) + [f(k - 1)])[..k - 1] == Tabulate(k - 1, f);
    }
  }

  lemma {:induction false} TabulateExt(k: nat, f: nat -> seq<Row>, g: nat -> seq<Row>)
    requires forall i :: 0 <= i < k ==> f(i) == g(i)
    ensures Tabulate(k, f) == Tabulate(k, g)
  {
    if k > 0 {
      TabulateExt(k - 1, f, g);
    }
  }

  /** Message `i`'s rows, for every `i` below the number of messages. */
  function RowsFn(ms: seq<Message>, me: string, anchor: string, env: Env): nat -> seq<Row> {
    (i: nat) => if i < |ms| then RowsAt(ms, i, me, anchor, env) else []
  }

  /** All the rows `buildRows` returns for normalised `me`: the blocks of all messages, in order. */
  function Rows(ms: seq<Message>, me: string, anchor: string, env: Env): seq<Row> {
    Flatten(Tabulate(|ms|, RowsFn(ms, me, anchor, env)))
  }

  /** One more iteration appends message `i`'s rows. */
  lemma RowsStep(ms: seq<Message>, i: nat, me: string, anchor: string, env: Env)
    requires i < |ms|
    ensures Flatten(Tabulate(i + 1, RowsFn(ms, me, anchor, env))) ==
      Flatten(Tabulate(i, RowsFn(ms, me, anchor, env))) + RowsAt(ms, i, me, anchor, env)
  {
    var f := RowsFn(ms, me, anchor, env);
    FlattenSnoc(Tabulate(i + 1, f), i);
    TabulateAt(i + 1, f, i);
  }

  /** One iteration of `buildRows`' loop: the rows it pushes for message `i`. */
  method PushRows(ms: seq<Message>, i: nat, me: string, anchor: string, env: Env) returns (block: seq<Row>)
    requires i < |ms|
    ensures block == RowsAt(ms, i, me, anchor, env)
  {
    var m := ms[i];
    block := [];
    if i == 0 || env.dayKey(ms[i - 1].createdAt) != env.dayKey(m.createdAt) {
      block := block + [Day("day-" + m.id, env.fmtDay(m.createdAt))];
    }
    if anchor != "" && m.id == anchor {
      block := block + [New("new-" + m.id)];
    }
    block := block + [MsgRow(ms, i, me, env)];
  }

  /** `buildRows`: the loop pushing a day divider, a "new" marker and a message row per message. */
  method BuildRows(ms: seq<Message>, meId: string, anchor: string, env: Env) returns (rows: seq<Row>)
    ensures rows == Rows(ms, NormId(meId), anchor, env)
  {
    rows := [];
    var me := NormId(meId);
    var i := 0;
    while i < |ms|
      invariant 0 <= i <= |ms|
      invariant rows == Flatten(Tabulate(i, RowsFn(ms, me, anchor, env)))
    {
      var block := PushRows(ms, i, me, anchor, env);
      RowsStep(ms, i, me, anchor, env);
      rows := rows + block;
      i := i + 1;
    }
  }

  /** `MessageList` builds rows only once a `meId` is known. */
  function ListRows(ms: seq<Message>, meId: string, anchor: string, env: Env): (rows: seq<Row>)
    ensures meId == "" ==> rows == []
    ensures meId != "" ==> MsgsOf(rows) == ms
  {
    if meId == "" then []
    else
      RowsCarryMessages(ms, NormId(meId), anchor, env);
      Rows(ms, NormId(meId), anchor, env)
  }

  /** Every message gets exactly one message row, in order. */
  lemma RowsCarryMessages(ms: seq<Message>, me: string, anchor: string, env: Env)
    ensures MsgsOf(Rows(ms, me, anchor, env)) == ms
  {
    var f := RowsFn(ms, me, anchor, env);
    var bs := Tabulate(|ms|, f);
    forall i | 0 <= i < |bs|
      ensures MsgsOf(bs[i]) == [ms[i]]
    {
      TabulateAt(|ms|, f, i);
      RowsAtLast(ms, i, me, anchor, env);
    }
    MsgsOfFlatten(bs, ms);
  }

  /** What a message contributes depends only on it and the message before it. */
  lemma RowsAtPrefix(ms: seq<Message>, k: nat, i: nat, me: string, anchor: string, env: Env)
    requires i < k <= |ms|
    ensures RowsAt(ms[..k], i, me, anchor, env) == RowsAt(ms, i, me, anchor, env)
  {
    assert ms[..k][i] == ms[i];
    assert i > 0 ==> ms[..k][i - 1] == ms[i - 1];
  }

  /** The blocks of a prefix of the messages are the first blocks of all the messages. */
  lemma BlocksPrefix(ms: seq<Message>, k: nat, me: string, anchor: string, env: Env)
    requires k <= |ms|
    ensures Tabulate(k, RowsFn(ms[..k], me, anchor, env)) == Tabulate(|ms|, RowsFn(ms, me, anchor, env))[..k]
  {
    var f := RowsFn(ms, me, anchor, env);
    var g := RowsFn(ms[..k], me, anchor, env);
    forall i | 0 <= i < k
      ensures g(i) == f(i)
    {
      RowsAtPrefix(ms, k, i, me, anchor, env);
    }
    TabulateExt(k, g, f);
    if k < |ms| {
      TabulateAt(|ms|, f, k);
    } else {
      assert Tabulate(|ms|, f)[..k] == Tabulate(|ms|, f);
    }
  }

  /** The rows for a prefix of the messages are a prefix of the rows. */
  lemma RowsPrefix(ms: seq<Message>, k: nat, me: string, anchor: string, env: Env)
    requires k <= |ms|
    ensures var p := Rows(ms[..k], me, anchor, env); var r := Rows(ms, me, anchor, env);
      |p| <= |r| && r[..|p|] == p
  {
    BlocksPrefix(ms, k, me, anchor, env);
    FlattenPrefix(Tabulate(|ms|, RowsFn(ms, me, anchor, env)), k);
  }

  /** Block `i` of all the rows is what the loop pushes for message `i`. */
  lemma RowsBlocks(ms: seq<Message>, i: nat, me: string, anchor: string, env: Env)
    requires i < |ms|
    ensures Tabulate(|ms|, RowsFn(ms, me, anchor, env))[i] == RowsAt(ms, i, me, anchor, env)
  {
    TabulateAt(|ms|, RowsFn(ms, me, anchor, env), i);
  }

  /** The rows of a non-empty list open with a day divider for the first message. */
  lemma FirstRow(ms: seq<Message>, me: string, anchor: string, env: Env)
    requires ms != []
    ensures var r := Rows(ms, me, anchor, env);
      r != [] && r[0] == Day("day-" + ms[0].id, env.fmtDay(ms[0].createdAt))
  {
    var f := RowsFn(ms, me, anchor, env);
    var bs := Tabulate(|ms|, f);
    TabulateAt(|ms|, f, 0);
    FlattenBlock(bs, 0);
    assert bs[..0] == [];
    RowsAtDay(ms, 0, me, anchor, env);
  }
}
