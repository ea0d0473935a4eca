/** A connection's output queue: buffers gathered into messages, sent piece by piece. */
module OutputQueue {
  import opened Store

  const UDP_MAX_PAYLOAD: nat := 1400
  const UDP_HEADER: nat := 8
  const IOV_MAX: nat := 1024
  const IOV_LIST_INITIAL: nat := 400
  const MSG_LIST_INITIAL: nat := 10

  /** A msghdr: where its pieces start in the iov list, and how many there are. */
  datatype Msg = Msg(start: nat, len: nat)

  /** A message as the list of its pieces. */
  type Pieces = seq<Bytes>

  // ----- bytes of pieces

  lemma FlattenCons<T>(x: seq<T>, rest: seq<seq<T>>)
    ensures Flatten([x] + rest) == x + Flatten(rest)
  {
    FlattenConcat([x], rest);
    assert [x][..0] == [] && Flatten([x]) == [] + x;
  }

  lemma FlattenSnoc<T>(rest: seq<seq<T>>, x: seq<T>)
    ensures Flatten(rest + [x]) == Flatten(rest) + x
  {
    assert (rest + [x])[..|rest|] == rest;
  }

  /** The payload of a message: for UDP without the header that comes first. */
  function Body(udp: bool, m: Pieces): Bytes {
    if udp && m != [] then Flatten(m[1..]) else Flatten(m)
  }

  /** What the messages carry, one after the other. */
  function Payload(udp: bool, messages: seq<Pieces>): Bytes {
    if messages == [] then [] else Payload(udp, messages[..|messages| - 1]) + Body(udp, messages[|messages| - 1])
  }

  lemma PayloadSnoc(udp: bool, messages: seq<Pieces>, m: Pieces)
    ensures Payload(udp, messages + [m]) == Payload(udp, messages) + Body(udp, m)
  {
    assert (messages + [m])[..|messages|] == messages;
  }

  /** A message that gets another piece. */
  lemma BodySnoc(udp: bool, m: Pieces, piece: Bytes)
    requires udp ==> m != []
    ensures Body(udp, m + [piece]) == Body(udp, m) + piece
  {
    if udp {
      assert (m + [piece])[1..] == m[1..] + [piece];
      FlattenSnoc(m[1..], piece);
    } else {
      FlattenSnoc(m, piece);
    }
  }

  // ----- the lists behind the messages

  /** While the queue is being filled, the pieces of all messages lie one after the other. */
  ghost predicate PackedAt(msglist: seq<Msg>, messages: seq<Pieces>, i: int) {
    0 <= i < |messages| && |msglist| == |messages| ==> msglist[i] == Msg(|Flatten(messages[..i])|, |messages[i]|)
  }

  ghost predicate Packed(iov: seq<Bytes>, msglist: seq<Msg>, messages: seq<Pieces>) {
    && |msglist| == |messages| && iov == Flatten(messages)
    && forall i {:trigger PackedAt(msglist, messages, i)} :: PackedAt(msglist, messages, i)
  }

  lemma PackedNewMessage(iov: seq<Bytes>, msglist: seq<Msg>, messages: seq<Pieces>)
    requires Packed(iov, msglist, messages)
    ensures Packed(iov, msglist + [Msg(|iov|, 0)], messages + [[]])
  {
    var msglist', messages' := msglist + [Msg(|iov|, 0)], messages + [[]];
    FlattenSnoc(messages, []);
    forall i
      ensures PackedAt(msglist', messages', i)
    {
      assert PackedAt(msglist, messages, i);
      if 0 <= i <= |messages| {
        assert messages'[..i] == messages[..i];
        assert messages[..|messages|] == messages;
      }
    }
  }

  lemma PackedNewPiece(iov: seq<Bytes>, msglist: seq<Msg>, messages: seq<Pieces>, piece: Bytes)
    requires Packed(iov, msglist, messages) && messages != []
    ensures var last := |messages| - 1;
            Packed(iov + [piece], msglist[last := msglist[last].(len := msglist[last].len + 1)], messages[last := messages[last] + [piece]])
  {
    var last := |messages| - 1;
    var msglist', messages' := msglist[last := msglist[last].(len := msglist[last].len + 1)], messages[last := messages[last] + [piece]];
    assert messages'[..last] == messages[..last];
    assert Flatten(messages[..last]) + (messages[last] + [piece]) == Flatten(messages[..last]) + messages[last] + [piece];
    forall i
      ensures PackedAt(msglist', messages', i)
    {
      assert PackedAt(msglist, messages, i);
      if 0 <= i <= last {
        assert messages'[..i] == messages[..i];
      }
    }
  }

  // ----- sending

  /** Once sending starts, each message still has its pieces in its own part of the list. */
  ghost predicate PlacedAt(iov: seq<Bytes>, msglist: seq<Msg>, messages: seq<Pieces>, i: int) {
    0 <= i < |messages| && |msglist| == |messages| ==>
      && msglist[i].start + msglist[i].len <= |iov| && iov[msglist[i].start..msglist[i].start + msglist[i].len] == messages[i]
      && (i + 1 < |messages| ==> msglist[i].start + msglist[i].len <= msglist[i + 1].start)
  }

  ghost predicate Placed(iov: seq<Bytes>, msglist: seq<Msg>, messages: seq<Pieces>) {
    |msglist| == |messages| && forall i {:trigger PlacedAt(iov, msglist, messages, i)} :: PlacedAt(iov, msglist, messages, i)
  }

  lemma FlattenSlice(messages: seq<Pieces>, i: nat)
    requires i < |messages|
    ensures |Flatten(messages[..i])| + |messages[i]| <= |Flatten(messages)|
    ensures var start := |Flatten(messages[..i])|; Flatten(messages)[start..start + |messages[i]|] == messages[i]
  {
    assert messages == messages[..i] + ([messages[i]] + messages[i + 1..]);
    FlattenConcat(messages[..i], [messages[i]] + messages[i + 1..]);
    FlattenCons(messages[i], messages[i + 1..]);
  }

  /** A queue that has been filled is ready to be sent. */
  lemma PackedIsPlaced(iov: seq<Bytes>, msglist: seq<Msg>, messages: seq<Pieces>)
    requires Packed(iov, msglist, messages)
    ensures Placed(iov, msglist, messages)
  {
    forall i
      ensures PlacedAt(iov, msglist, messages, i)
    {
      assert PackedAt(msglist, messages, i) && PackedAt(msglist, messages, i + 1);
      if 0 <= i < |messages| {
        FlattenSlice(messages, i);
        if i + 1 < |messages| {
          assert messages[..i + 1] == messages[..i] + [messages[i]];
          FlattenSnoc(messages[..i], messages[i]);
        }
      }
    }
  }

  lemma {:induction false} Ahead(iov: seq<Bytes>, msglist: seq<Msg>, messages: seq<Pieces>, i: nat, j: nat)
    requires Placed(iov, msglist, messages) && i < j < |messages|
    ensures msglist[i].start + msglist[i].len <= msglist[j].start
    decreases j
  {
    assert PlacedAt(iov, msglist, messages, j - 1);
    if i < j - 1 {
      Ahead(iov, msglist, messages, i, j - 1);
    }
  }

  /** The current message gives up its first piece. */
  lemma PlacedShift(iov: seq<Bytes>, msglist: seq<Msg>, messages: seq<Pieces>, c: nat)
    requires Placed(iov, msglist, messages) && c < |messages| && messages[c] != []
    ensures msglist[c].len > 0 && msglist[c].start < |iov| && iov[msglist[c].start] == messages[c][0]
    ensures Placed(iov, msglist[c := Msg(msglist[c].start + 1, msglist[c].len - 1)], messages[c := messages[c][1..]])
  {
    assert PlacedAt(iov, msglist, messages, c);
    assert iov[msglist[c].start..msglist[c].start + msglist[c].len][0] == messages[c][0];
    var msglist', messages' := msglist[c := Msg(msglist[c].start + 1, msglist[c].len - 1)], messages[c := messages[c][1..]];
    forall i
      ensures PlacedAt(iov, msglist', messages', i)
    {
      assert PlacedAt(iov, msglist, messages, i);
      if i == c {
        assert iov[msglist'[c].start..msglist'[c].start + msglist'[c].len]
            == iov[msglist[c].start..msglist[c].start + msglist[c].len][1..];
      }
    }
  }

  /** The current message gives up the first bytes of its first piece. */
  lemma PlacedCut(iov: seq<Bytes>, msglist: seq<Msg>, messages: seq<Pieces>, c: nat, piece: Bytes)
    requires Placed(iov, msglist, messages) && c < |messages| && messages[c] != []
    ensures msglist[c].start < |iov|
    ensures Placed(iov[msglist[c].start := piece], msglist, messages[c := messages[c][0 := piece]])
  {
    assert PlacedAt(iov, msglist, messages, c);
    var at := msglist[c].start;
    var iov', messages' := iov[at := piece], messages[c := messages[c][0 := piece]];
    forall i
      ensures PlacedAt(iov', msglist, messages', i)
    {
      assert PlacedAt(iov, msglist, messages, i);
      if 0 <= i < |messages| {
        if i < c {
          Ahead(iov, msglist, messages, i, c);
        } else if c < i {
          Ahead(iov, msglist, messages, c, i);
        }
        var lo, hi := msglist[i].start, msglist[i].start + msglist[i].len;
        assert iov'[lo..hi] == if i == c then iov[lo..hi][0 := piece] else iov[lo..hi];
      }
    }
  }

  /** What is left to send, from message c on. */
  function Rest(messages: seq<Pieces>, c: nat): Bytes
    requires c <= |messages|
    decreases |messages| - c
  {
    if c == |messages| then [] else Flatten(messages[c]) + Rest(messages, c + 1)
  }

  lemma {:induction false} RestUpdate(messages: seq<Pieces>, c: nat, i: nat, m: Pieces)
    requires i < c <= |messages|
    ensures Rest(messages[i := m], c) == Rest(messages, c)
    decreases |messages| - c
  {
    if c < |messages| {
      RestUpdate(messages, c + 1, i, m);
    }
  }

  lemma {:induction false} RestFrom(messages: seq<Pieces>, c: nat)
    requires c <= |messages|
    ensures Rest(messages, c) == Flatten(Flatten(messages[c..]))
    decreases |messages| - c
  {
    if c < |messages| {
      RestFrom(messages, c + 1);
      assert messages[c..] == [messages[c]] + messages[c + 1..];
      FlattenCons(messages[c], messages[c + 1..]);
      FlattenConcat(messages[c], Flatten(messages[c + 1..]));
    } else {
      assert messages[c..] == [];
    }
  }

  lemma {:induction false} PayloadTcp(messages: seq<Pieces>)
    ensures Payload(false, messages) == Flatten(Flatten(messages))
  {
    if messages != [] {
      var n := |messages| - 1;
      PayloadTcp(messages[..n]);
      FlattenConcat(Flatten(messages[..n]), messages[n]);
    }
  }

  datatype Result = Complete | Incomplete | SoftError | HardError

  /** What sendmsg returned: a number of bytes, would-block, or another error. */
  datatype Sent = Count(n: nat) | WouldBlock | Failed

  /** Limits on what the i-th message holds. */
  ghost predicate FitsAt(udp: bool, messages: seq<Pieces>, i: int) {
    0 <= i < |messages| ==>
      && (udp ==> messages[i] != [] && |messages[i][0]| == UDP_HEADER)
      && (udp || i == 0 ==> |Flatten<Byte>(messages[i])| <= UDP_MAX_PAYLOAD)
      && |messages[i]| <= IOV_MAX
  }

  ghost predicate AllFit(udp: bool, messages: seq<Pieces>) {
    forall i {:trigger FitsAt(udp, messages, i)} :: FitsAt(udp, messages, i)
  }

  /** Replacing or adding the last message. */
  lemma FitLast(udp: bool, messages: seq<Pieces>, messages': seq<Pieces>)
    requires AllFit(udp, messages) && messages' != [] && |messages'| - 1 <= |messages|
    requires messages'[..|messages'| - 1] == messages[..|messages'| - 1] && FitsAt(udp, messages', |messages'| - 1)
    ensures AllFit(udp, messages')
  {
    forall i
      ensures FitsAt(udp, messages', i)
    {
      assert FitsAt(udp, messages, i);
      assert 0 <= i < |messages'| - 1 ==> messages'[i] == messages'[..|messages'| - 1][i] == messages[i];
    }
  }

  lemma DatagramsFit(udp: bool, messages: seq<Pieces>)
    requires AllFit(udp, messages)
    ensures udp ==> forall m | m in messages :: |Flatten<Byte>(m)| <= UDP_MAX_PAYLOAD
  {
    forall m | m in messages
      ensures udp ==> |Flatten<Byte>(m)| <= UDP_MAX_PAYLOAD
    {
      var i :| 0 <= i < |messages| && messages[i] == m;
      assert FitsAt(udp, messages, i);
    }
  }

  /** Eight bytes kept free for the UDP header. */
  function HeaderRoom(): (b: Bytes)
    ensures |b| == UDP_HEADER
  {
    seq(UDP_HEADER, _ => 0)
  }

  function EmptyMessage(udp: bool): Pieces {
    if udp then [HeaderRoom()] else []
  }

  lemma EmptyFits(udp: bool, messages: seq<Pieces>)
    ensures FitsAt(udp, messages + [EmptyMessage(udp)], |messages|) && Body(udp, EmptyMessage(udp)) == []
    ensures |Flatten(EmptyMessage(udp))| == if udp then UDP_HEADER else 0
  {
    FlattenSnoc([], HeaderRoom());
    assert [] + [HeaderRoom()] == [HeaderRoom()] && [HeaderRoom()][1..] == [];
  }

  // ----- where a buffer goes

  function LastOf(messages: seq<Pieces>): Pieces
    requires messages != []
  {
    messages[|messages| - 1]
  }

  /** Datagrams, and the first message of a TCP reply, are limited in size. */
  predicate Limited(udp: bool, messages: seq<Pieces>) {
    udp || |messages| == 1
  }

  /** A new message if the last one is full. */
  function WithRoom(udp: bool, messages: seq<Pieces>): (r: seq<Pieces>)
    requires messages != []
    ensures r != [] && (Limited(udp, messages) ==> |Flatten<Byte>(LastOf(r))| < UDP_MAX_PAYLOAD)
  {
    EmptyFits(udp, messages);
    var m := LastOf(messages);
    if |m| == IOV_MAX || (Limited(udp, messages) && |Flatten<Byte>(m)| >= UDP_MAX_PAYLOAD) then messages + [EmptyMessage(udp)] else messages
  }

  /** How much of the buffer the message takes. */
  function Taken(udp: bool, messages: seq<Pieces>, buf: Bytes): (n: nat)
    requires messages != []
    ensures n <= |buf| && (buf != [] ==> 0 < n)
  {
    var bytes := |Flatten<Byte>(LastOf(WithRoom(udp, messages)))|;
    if Limited(udp, messages) && |buf| + bytes > UDP_MAX_PAYLOAD then UDP_MAX_PAYLOAD - bytes else |buf|
  }

  function PutFirst(udp: bool, messages: seq<Pieces>, buf: Bytes): (r: seq<Pieces>)
    requires messages != []
    ensures r != []
  {
    var filled := WithRoom(udp, messages);
    filled[|filled| - 1 := LastOf(filled) + [buf[..Taken(udp, messages, buf)]]]
  }

  /** The messages after a buffer has been added. */
  function Queued(udp: bool, messages: seq<Pieces>, buf: Bytes): (r: seq<Pieces>)
    requires messages != []
    ensures r != []
    decreases |buf|
  {
    var rest := buf[Taken(udp, messages, buf)..];
    if rest == [] then PutFirst(udp, messages, buf) else Queued(udp, PutFirst(udp, messages, buf), rest)
  }

  lemma QueuedStep(udp: bool, messages: seq<Pieces>, buf: Bytes)
    requires messages != []
    ensures var rest := buf[Taken(udp, messages, buf)..];
            && Queued(udp, messages, buf) == (if rest == [] then PutFirst(udp, messages, buf) else Queued(udp, PutFirst(udp, messages, buf), rest))
            && (buf != [] ==> |rest| < |buf|)
  {
  }

  function QueuedAll(udp: bool, buffers: seq<Bytes>): (r: seq<Pieces>)
    ensures r != []
  {
    if buffers == [] then [EmptyMessage(udp)]
    else Queued(udp, QueuedAll(udp, buffers[..|buffers| - 1]), buffers[|buffers| - 1])
  }

  /** Only the last message has changed, and new ones may have come after it. */
  ghost predicate Extends(a: seq<Pieces>, b: seq<Pieces>) {
    a != [] && |a| <= |b| && b[..|a| - 1] == a[..|a| - 1]
  }

  lemma ExtendsFurther(a: seq<Pieces>, b: seq<Pieces>, c: seq<Pieces>)
    requires Extends(a, b) && Extends(b, c)
    ensures Extends(a, c)
  {
    assert c[..|a| - 1] == c[..|b| - 1][..|a| - 1] == b[..|b| - 1][..|a| - 1] == b[..|a| - 1];
  }

  // ----- messages that cannot be sent

  /** The message that transmit looks at next. */
  function Upcoming(messages: seq<Pieces>, c: nat): (cur: nat)
    ensures c <= |messages| ==> c <= cur <= |messages|
  {
    if c < |messages| && messages[c] == [] then c + 1 else c
  }

  /** The messages after message c have not been started on. */
  ghost predicate Pieced(messages: seq<Pieces>, c: nat) {
    forall i | c < i < |messages| :: messages[i] != []
  }

  /** No message to come is without bytes: sendmsg would take nothing of it. */
  ghost predicate Sendable(messages: seq<Pieces>, c: nat) {
    forall i | Upcoming(messages, c) <= i < |messages| :: Flatten<Byte>(messages[i]) != []
  }

  /** Sending some of a message leaves it with bytes, or finished. */
  lemma SameSendable(messages: seq<Pieces>, c: nat, m: Pieces)
    requires c < |messages| && Flatten<Byte>(messages[c]) != [] && (m == [] || Flatten<Byte>(m) != [])
    ensures Sendable(messages[c := m], c) == Sendable(messages, c)
  {
    hide Flatten;
    NothingLeft(messages[c]);
    var messages' := messages[c := m];
    assert forall i | c < i < |messages| :: messages'[i] == messages[i];
  }

  /** A queue for which every added buffer has bytes can be sent. */
  ghost predicate AllHaveBytes(messages: seq<Pieces>) {
    messages == [[]] || forall m | m in messages :: Flatten<Byte>(m) != []
  }

  lemma {:induction false} QueuedHasBytes(udp: bool, messages: seq<Pieces>, buf: Bytes)
    requires messages != [] && AllHaveBytes(messages) && buf != []
    ensures AllHaveBytes(Queued(udp, messages, buf))
    decreases |buf|
  {
    hide Flatten;
    var n := Taken(udp, messages, buf);
    var filled := WithRoom(udp, messages);
    FlattenSnoc(LastOf(filled), buf[..n]);
    var next := PutFirst(udp, messages, buf);
    forall m | m in next
      ensures Flatten<Byte>(m) != []
    {
      var i :| 0 <= i < |next| && next[i] == m;
      if i < |next| - 1 {
        assert next[i] == filled[i] && (i < |messages| ==> filled[i] == messages[i]);
        assert filled[i] in messages;
      } else {
        assert |Flatten<Byte>(m)| == |Flatten<Byte>(LastOf(filled))| + n;
      }
    }
    if buf[n..] != [] {
      QueuedHasBytes(udp, next, buf[n..]);
    }
  }

  /** Without empty buffers nothing gets stuck. */
  lemma {:induction false} FullBuffersSend(buffers: seq<Bytes>)
    requires forall i | 0 <= i < |buffers| :: buffers[i] != []
    ensures AllHaveBytes(QueuedAll(false, buffers)) && Sendable(QueuedAll(false, buffers), 0)
  {
    if buffers != [] {
      FullBuffersSend(buffers[..|buffers| - 1]);
      QueuedHasBytes(false, QueuedAll(false, buffers[..|buffers| - 1]), buffers[|buffers| - 1]);
    }
    var q := QueuedAll(false, buffers);
    if q != [[]] {
      assert forall i | 0 <= i < |q| :: q[i] in q;
    }
  }

  /** Datagrams have their headers. */
  lemma DatagramsSend(messages: seq<Pieces>)
    requires AllFit(true, messages)
    ensures Sendable(messages, 0)
  {
    forall i | 0 <= i < |messages|
      ensures Flatten<Byte>(messages[i]) != []
    {
      assert FitsAt(true, messages, i);
      FirstPiece(messages[i]);
    }
  }

  /** The buffers go into one message of a TCP reply. */
  predicate OneMessage(buffers: seq<Bytes>) {
    && 0 < |buffers| <= IOV_MAX && |Flatten(buffers[..|buffers| - 1])| < UDP_MAX_PAYLOAD && |Flatten(buffers)| <= UDP_MAX_PAYLOAD
  }

  lemma {:induction false} OneMessageQueued(buffers: seq<Bytes>)
    requires OneMessage(buffers)
    ensures QueuedAll(false, buffers) == [buffers]
  {
    hide Flatten, Queued;
    var n := |buffers| - 1;
    var before, last := buffers[..n], buffers[n];
    assert buffers == before + [last];
    FlattenSnoc(before, last);
    if n > 0 {
      assert before == before[..n - 1] + [before[n - 1]];
      FlattenSnoc(before[..n - 1], before[n - 1]);
      OneMessageQueued(before);
    } else {
      assert before == [];
    }
    assert QueuedAll(false, buffers) == Queued(false, [before], last);
    OneMoreFits(before, last);
  }

  lemma OneMoreFits(before: Pieces, last: Bytes)
    requires |before| < IOV_MAX && |Flatten(before)| < UDP_MAX_PAYLOAD && |Flatten(before)| + |last| <= UDP_MAX_PAYLOAD
    ensures Queued(false, [before], last) == [before + [last]]
  {
    hide Flatten;
    assert LastOf([before]) == before && WithRoom(false, [before]) == [before] && Taken(false, [before], last) == |last|;
    assert last[..|last|] == last && last[|last|..] == [];
    assert PutFirst(false, [before], last) == [before + [last]];
  }

  /** A reply in one message that starts with bytes, such as a header, is sent completely, with
      empty buffers after it or not. */
  lemma HeaderFirstSends(buffers: seq<Bytes>)
    requires OneMessage(buffers) && buffers[0] != []
    ensures Sendable(QueuedAll(false, buffers), 0)
  {
    OneMessageQueued(buffers);
    FirstPiece(buffers);
  }

  /** An empty buffer that has to start a new message gets stuck there. */
  lemma EmptyBufferAfterFull(x: Bytes)
    requires |x| == UDP_MAX_PAYLOAD
    ensures QueuedAll(false, [x, []]) == [[x], [[]]] && !Sendable(QueuedAll(false, [x, []]), 0)
  {
    var full, empty: seq<Bytes> := [x], [];
    FlattenSnoc<Byte>([], x);
    FlattenSnoc<Byte>([], []);
    assert [] + [x] == full && empty + [[]] == [[]] && [] + x == x;
    assert [x, []][..1] == full && full[..0] == [];
    OneMessageQueued(full);
    assert QueuedAll(false, [x, []]) == Queued(false, [full], []);
    assert Flatten(full) == x && WithRoom(false, [full]) == [full, empty] && Taken(false, [full], []) == 0;
    assert PutFirst(false, [full], []) == [full, empty + [[]]];
    var q := QueuedAll(false, [x, []]);
    assert q == [full, [[]]] && Upcoming(q, 0) == 0 && Flatten<Byte>(q[1]) == [];
  }

  /** So does one that is alone. */
  lemma EmptyBufferSticks()
    ensures QueuedAll(false, [[]]) == [[[]]] && !Sendable(QueuedAll(false, [[]]), 0)
  {
    var one: seq<Bytes> := [[]];
    assert one[..0] == [] && QueuedAll(false, one) == Queued(false, [[]], []);
    var empty: Pieces := [];
    assert Flatten(empty) == [] && WithRoom(false, [empty]) == [empty] && Taken(false, [empty], []) == 0;
    assert PutFirst(false, [empty], []) == [empty + [[]]] && empty + [[]] == [[]];
    FlattenSnoc<Byte>([], []);
    var q := QueuedAll(false, one);
    assert q == [[[]]] && q[0] == empty + [[]] && Upcoming(q, 0) == 0 && Flatten<Byte>(q[0]) == [];
  }

  class Conn {
    const udp: bool
    var iov: seq<Bytes>
    var iovSize: nat
    var msglist: seq<Msg>
    var msgSize: nat
    var msgBytes: nat
    var msgCurr: nat
    ghost var messages: seq<Pieces>

    ghost predicate Room()
      reads this
    {
      |iov| <= iovSize && 0 < iovSize && |msglist| <= msgSize && 0 < msgSize
    }

    /** The queue while it is being filled: nothing has been sent yet. */
    ghost predicate Filling()
      reads this
    {
      Open() && Pieced(messages, 0)
    }

    /** In the middle of add_iov the last message may be a new one. */
    ghost predicate Open()
      reads this
    {
      && Packed(iov, msglist, messages) && messages != [] && msgCurr == 0 && Room()
      && msgBytes == |Flatten(messages[|messages| - 1])| && AllFit(udp, messages)
    }

    constructor (isUdp: bool)
      ensures udp == isUdp && Filling() && messages == [EmptyMessage(udp)] && Payload(udp, messages) == []
    {
      udp := isUdp;
      iov, msglist, messages := [], [], [];
      iovSize, msgSize, msgBytes, msgCurr := IOV_LIST_INITIAL, MSG_LIST_INITIAL, 0, 0;
      new;
      AddMsghdr();
    }

    /** ensure_iov_space: the list doubles, and every message is pointed at its place in it. */
    method EnsureIovSpace()
      requires Packed(iov, msglist, messages) && |iov| <= iovSize && 0 < iovSize
      modifies this`iovSize, this`msglist
      ensures |iov| < iovSize && msglist == old(msglist)
    {
      if |iov| >= iovSize {
        iovSize := iovSize * 2;
        var i, iovnum := 0, 0;
        while i < |msglist|
          invariant i <= |msglist| && msglist == old(msglist) && iovnum == |Flatten(messages[..i])| && iovSize == old(iovSize) * 2
        {
          assert PackedAt(msglist, messages, i);
          assert messages[..i + 1] == messages[..i] + [messages[i]];
          FlattenSnoc(messages[..i], messages[i]);
          msglist := msglist[i := msglist[i].(start := iovnum)];
          iovnum := iovnum + msglist[i].len;
          i := i + 1;
        }
      }
    }

    /** add_msghdr */
    method AddMsghdr()
      requires Packed(iov, msglist, messages) && msgCurr == 0 && Room() && AllFit(udp, messages)
      modifies this
      ensures Open() && messages == old(messages) + [EmptyMessage(udp)]
      ensures Payload(udp, messages) == Payload(udp, old(messages))
    {
      hide Packed, AllFit, Flatten, Payload, Body;
      ghost var before := messages;
      NothingLeft([]);
      if msgSize == |msglist| {
        msgSize := msgSize * 2;
      }
      PackedNewMessage(iov, msglist, messages);
      SameCount(iov, msglist, messages);
      msglist := msglist + [Msg(|iov|, 0)];
      messages := messages + [[]];
      msgBytes := 0;
      if udp {
        EnsureIovSpace();
        PutPiece(HeaderRoom());
        assert messages == before + [[] + [HeaderRoom()]];
        assert [] + [HeaderRoom()] == [HeaderRoom()];
      }
      EmptyFits(udp, before);
      assert messages[..|before|] == before == before[..|before|];
      FitLast(udp, before, messages);
      PayloadSnoc(udp, before, EmptyMessage(udp));
    }

    /** The last stores of add_iov's loop body. */
    method PutPiece(piece: Bytes)
      requires Packed(iov, msglist, messages) && messages != [] && |iov| < iovSize && msgBytes == |Flatten(messages[|messages| - 1])|
      modifies this`iov, this`msglist, this`msgBytes, this`messages
      ensures Packed(iov, msglist, messages) && |iov| <= iovSize && |msglist| == |old(msglist)|
      ensures messages == old(messages)[|old(messages)| - 1 := old(messages)[|old(messages)| - 1] + [piece]]
      ensures msgBytes == |Flatten(messages[|messages| - 1])| == old(msgBytes) + |piece|
    {
      hide Flatten, PackedAt;
      PackedNewPiece(iov, msglist, messages, piece);
      var last := |msglist| - 1;
      FlattenSnoc(messages[last], piece);
      iov := iov + [piece];
      msglist := msglist[last := msglist[last].(len := msglist[last].len + 1)];
      msgBytes := msgBytes + |piece|;
      messages := messages[last := messages[last] + [piece]];
    }

    /** Starts a new message if the last one is full. */
    method MakeRoom(limitToMtu: bool)
      requires Filling() && (udp ==> limitToMtu)
      modifies this
      ensures Open() && Payload(udp, messages) == Payload(udp, old(messages))
      ensures limitToMtu == Limited(udp, old(messages)) ==> messages == WithRoom(udp, old(messages))
      ensures messages == old(messages) || messages == old(messages) + [EmptyMessage(udp)]
      ensures |messages[|messages| - 1]| < IOV_MAX && (limitToMtu ==> msgBytes < UDP_MAX_PAYLOAD)
    {
      hide Packed, AllFit, Payload, Flatten;
      SameCount(iov, msglist, messages);
      CurrentLength(iov, msglist, messages, |messages| - 1);
      FitsAtLast(udp, messages);
      if msglist[|msglist| - 1].len == IOV_MAX || (limitToMtu && msgBytes >= UDP_MAX_PAYLOAD) {
        AddMsghdr();
        EmptyFits(udp, old(messages));
      }
    }

    /** One round of add_iov's loop: as much of the buffer as the message takes. */
    method AddPiece(buf: Bytes) returns (leftover: Bytes)
      requires Filling()
      modifies this
      ensures Filling() && Extends(old(messages), messages)
      ensures messages == PutFirst(udp, old(messages), buf) && leftover == buf[Taken(udp, old(messages), buf)..]
      ensures Payload(udp, messages) + leftover == Payload(udp, old(messages)) + buf
    {
      hide Packed, AllFit, Payload, Flatten;
      SameCount(iov, msglist, messages);
      var limitToMtu := udp || |msglist| == 1;
      MakeRoom(limitToMtu);
      ghost var filled := messages;
      assert filled[..|old(messages)| - 1] == old(messages)[..|old(messages)| - 1];
      EnsureIovSpace();
      var len := |buf|;
      if limitToMtu && len + msgBytes > UDP_MAX_PAYLOAD {
        len := UDP_MAX_PAYLOAD - msgBytes;
      }
      FitsAtLast(udp, filled);
      PutPiece(buf[..len]);
      leftover := buf[len..];
      PieceAdded(udp, filled, buf, len);
      FitLast(udp, filled, messages);
    }

    /** add_iov */
    method AddIov(buf: Bytes)
      requires Filling()
      modifies this
      ensures Filling() && Payload(udp, messages) == Payload(udp, old(messages)) + buf
      ensures messages == Queued(udp, old(messages), buf)
      ensures udp ==> forall m | m in messages :: |Flatten<Byte>(m)| <= UDP_MAX_PAYLOAD
      ensures Extends(old(messages), messages)
    {
      hide Payload, Queued, PutFirst, Taken, WithRoom, Flatten, Packed, AllFit, Pieced, Extends;
      ghost var before := messages;
      QueuedStep(udp, before, buf);
      var rest := AddPiece(buf);
      while rest != []
        invariant Filling() && Payload(udp, messages) + rest == Payload(udp, before) + buf
        invariant Extends(before, messages)
        invariant Queued(udp, before, buf) == if rest == [] then messages else Queued(udp, messages, rest)
        decreases |rest|
      {
        ghost var middle := messages;
        QueuedStep(udp, middle, rest);
        rest := AddPiece(rest);
        ExtendsFurther(before, middle, messages);
      }
      assert Payload(udp, messages) + [] == Payload(udp, messages);
      DatagramsFit(udp, messages);
    }

    /** The queue while it is being sent. */
    ghost predicate Sending()
      reads this
    {
      Placed(iov, msglist, messages) && msgCurr <= |messages| && Pieced(messages, msgCurr)
    }

    lemma ReadyToSend()
      requires Filling()
      ensures Sending()
    {
      PackedIsPlaced(iov, msglist, messages);
    }

    /** The message that transmit is about to send. */
    ghost function Current(): nat
      reads this
    {
      Upcoming(messages, msgCurr)
    }

    /** sendmsg: the socket takes some of the current message, at most `want`, or fails. */
    method SendMsg(want: Sent) returns (outcome: Sent)
      requires Sending()
      ensures outcome.Count? && Current() < |messages| ==> outcome.n <= |Flatten(messages[Current()])|
      ensures want.Count? <==> outcome.Count?
      ensures want.Count? && 0 < want.n && Current() < |messages| && Flatten<Byte>(messages[Current()]) != [] ==> 0 < outcome.n
      ensures !want.Count? ==> outcome == want
    {
      PlacedCount(iov, msglist, messages);
      var c := msgCurr;
      if c < |msglist| {
        PlacedLength(iov, msglist, messages, c);
        if msglist[c].len == 0 {
          c := c + 1;
        }
      }
      if want.Count? && c < |msglist| {
        assert PlacedAt(iov, msglist, messages, c);
        var size := 0;
        for j := 0 to msglist[c].len
          invariant size == |Flatten(messages[c][..j])|
        {
          assert messages[c][..j + 1] == messages[c][..j] + [messages[c][j]];
          FlattenSnoc(messages[c][..j], messages[c][j]);
          assert iov[msglist[c].start..msglist[c].start + msglist[c].len][j] == iov[msglist[c].start + j];
          size := size + |iov[msglist[c].start + j]|;
        }
        assert messages[c][..msglist[c].len] == messages[c];
        return Count(if want.n <= size then want.n else size);
      }
      outcome := want;
    }

    /** transmit, given what sendmsg does with the current message. Whatever is taken off the
        queue is what was sent. */
    method Transmit(outcome: Sent) returns (r: Result)
      requires Sending()
      requires outcome.Count? && Current() < |messages| ==> outcome.n <= |Flatten(messages[Current()])|
      modifies this
      ensures Sending() && r == old(if Current() == |messages| then Complete
                                    else match outcome
                                         case WouldBlock => SoftError
                                         case Failed => HardError
                                         case Count(n) => if n == 0 then HardError else Incomplete)
      ensures r == Complete ==> Rest(messages, msgCurr) == [] && old(Sendable(messages, msgCurr))
      ensures old(Sendable(messages, msgCurr)) && old(Rest(messages, msgCurr)) == [] ==> r == Complete
      ensures Sendable(messages, msgCurr) == old(Sendable(messages, msgCurr))
      ensures Rest(messages, msgCurr) == if r == Incomplete then Dropped(old(Rest(messages, msgCurr)), outcome.n) else old(Rest(messages, msgCurr))
    {
      hide Placed, Flatten;
      PlacedCount(iov, msglist, messages);
      if msgCurr < |msglist| {
        PlacedLength(iov, msglist, messages, msgCurr);
        if msglist[msgCurr].len == 0 {
          NoBytes();
          msgCurr := msgCurr + 1;
        }
      }
      if msgCurr < |msglist| {
        match outcome {
          case Count(n) =>
            if n > 0 {
              ghost var before := messages;
              TakeOff(n);
              SameSendable(before, msgCurr, messages[msgCurr]);
              return Incomplete;
            }
            return HardError;
          case WouldBlock => return SoftError;
          case Failed => return HardError;
        }
      }
      return Complete;
    }

    /** The part of transmit that removes what was written. */
    method TakeOff(n: nat)
      requires Sending() && msgCurr < |messages| && n <= |Flatten(messages[msgCurr])|
      modifies this`iov, this`msglist, this`messages
      ensures Sending() && Rest(messages, msgCurr) == Dropped(old(Rest(messages, msgCurr)), n)
      ensures |messages| == |old(messages)| && messages == old(messages)[msgCurr := messages[msgCurr]]
      ensures |Flatten(messages[msgCurr])| == |Flatten(old(messages)[msgCurr])| - n
      ensures n == |Flatten(old(messages)[msgCurr])| ==> messages[msgCurr] == []
    {
      hide Placed, Flatten, Rest, Dropped;
      ghost var before := messages;
      ghost var all := Rest(messages, msgCurr);
      var res: nat := n;
      ghost var later := Rest(messages, msgCurr + 1);
      RestNow(messages, msgCurr);
      PlacedCount(iov, msglist, messages);
      PlacedLength(iov, msglist, messages, msgCurr);
      NothingDropped(all);
      while msglist[msgCurr].len > 0 && res >= |iov[msglist[msgCurr].start]|
        invariant Placed(iov, msglist, messages) && msgCurr < |messages| == |msglist| && |messages[msgCurr]| == msglist[msgCurr].len
        invariant msglist[msgCurr].len > 0 ==> msglist[msgCurr].start < |iov|
        invariant res <= n <= |all| && res <= |Flatten(messages[msgCurr])|
        invariant |messages| == |before| && messages == before[msgCurr := messages[msgCurr]]
        invariant |Flatten(messages[msgCurr])| - res == |Flatten(before[msgCurr])| - n
        invariant Rest(messages, msgCurr + 1) == later && Rest(messages, msgCurr) == Dropped(all, n - res)
        decreases msglist[msgCurr].len
      {
        ghost var m := messages[msgCurr];
        PlacedShift(iov, msglist, messages, msgCurr);
        PieceSent(messages, msgCurr, all, n - res);
        res := res - |iov[msglist[msgCurr].start]|;
        msglist := msglist[msgCurr := Msg(msglist[msgCurr].start + 1, msglist[msgCurr].len - 1)];
        messages := messages[msgCurr := m[1..]];
        PlacedLength(iov, msglist, messages, msgCurr);
      }
      NothingLeft(messages[msgCurr]);
      PlacedLength(iov, msglist, messages, msgCurr);
      if messages[msgCurr] != [] {
        FirstPiece(messages[msgCurr]);
      }
      if res > 0 {
        ghost var part := Rest(messages, msgCurr);
        CutFirst(res);
        DropTwice(all, n - res, res);
        assert Rest(messages, msgCurr) == Dropped(part, res) == Dropped(all, n);
      }
    }

    /** The first piece was written only in part. */
    method CutFirst(res: nat)
      requires Sending() && msgCurr < |messages| && messages[msgCurr] != [] && res <= |messages[msgCurr][0]|
      modifies this`iov, this`messages
      ensures Sending() && Rest(messages, msgCurr) == Dropped(old(Rest(messages, msgCurr)), res)
      ensures |messages| == |old(messages)| && messages == old(messages)[msgCurr := messages[msgCurr]]
      ensures |Flatten(messages[msgCurr])| == |Flatten(old(messages)[msgCurr])| - res
    {
      hide Placed, Flatten, Rest;
      ghost var m, later := messages[msgCurr], Rest(messages, msgCurr + 1);
      PlacedLength(iov, msglist, messages, msgCurr);
      var at := msglist[msgCurr].start;
      FirstPiece(m);
      PlacedCut(iov, msglist, messages, msgCurr, iov[at][res..]);
      ghost var m' := m[0 := m[0][res..]];
      RestUpdate(messages, msgCurr + 1, msgCurr, m');
      RestNow(messages, msgCurr);
      iov := iov[at := iov[at][res..]];
      messages := messages[msgCurr := m'];
      RestNow(messages, msgCurr);
      FirstPiece(m');
      assert m'[1..] == m[1..];
      CutFront(m[0], Flatten(m[1..]), later, res);
    }

    lemma NoBytes()
      requires Sending() && msgCurr < |messages| && messages[msgCurr] == []
      ensures Rest(messages, msgCurr + 1) == Rest(messages, msgCurr)
    {
      assert Flatten(messages[msgCurr]) == [];
    }
  }

  /** What is left after n bytes. */
  function Dropped(b: Bytes, n: nat): Bytes {
    if n <= |b| then b[n..] else []
  }

  lemma DropMore(all: Bytes, k: nat, x: Bytes, rest: Bytes)
    requires k <= |all| && Dropped(all, k) == x + rest
    ensures k + |x| <= |all| && Dropped(all, k + |x|) == rest
  {
    assert all[k..][|x|..] == all[k + |x|..];
  }

  lemma NothingDropped(b: Bytes)
    ensures Dropped(b, 0) == b
  {
  }

  /** The first piece of message c goes, once k bytes of all have gone. */
  lemma PieceSent(messages: seq<Pieces>, c: nat, all: Bytes, k: nat)
    requires c < |messages| && messages[c] != [] && k <= |all| && Rest(messages, c) == Dropped(all, k)
    ensures var m := messages[c];
            var messages' := messages[c := m[1..]];
            && |Flatten(m)| == |m[0]| + |Flatten(m[1..])|
            && Rest(messages', c + 1) == Rest(messages, c + 1)
            && k + |m[0]| <= |all| && Rest(messages', c) == Dropped(all, k + |m[0]|)
  {
    hide Flatten, Rest, Dropped;
    var m, later := messages[c], Rest(messages, c + 1);
    FirstPiece(m);
    RestUpdate(messages, c + 1, c, m[1..]);
    RestNow(messages, c);
    RestNow(messages[c := m[1..]], c);
    assert m[0] + (Flatten(m[1..]) + later) == m[0] + Flatten(m[1..]) + later;
    DropMore(all, k, m[0], Flatten(m[1..]) + later);
  }

  lemma CutFront(x: Bytes, y: Bytes, z: Bytes, n: nat)
    requires n <= |x|
    ensures Dropped(x + y + z, n) == x[n..] + y + z
  {
  }

  lemma DropTwice(b: Bytes, k: nat, n: nat)
    requires k + n <= |b|
    ensures Dropped(Dropped(b, k), n) == Dropped(b, k + n)
  {
  }

  lemma FirstPiece(m: Pieces)
    requires m != []
    ensures Flatten(m) == m[0] + Flatten(m[1..])
  {
    assert m == [m[0]] + m[1..];
    FlattenCons(m[0], m[1..]);
  }

  lemma NothingLeft(m: Pieces)
    ensures m == [] ==> Flatten(m) == []
  {
  }

  lemma RestNow(messages: seq<Pieces>, c: nat)
    requires c < |messages|
    ensures Rest(messages, c) == Flatten(messages[c]) + Rest(messages, c + 1)
  {
  }

  lemma PlacedCount(iov: seq<Bytes>, msglist: seq<Msg>, messages: seq<Pieces>)
    requires Placed(iov, msglist, messages)
    ensures |msglist| == |messages|
  {
  }

  lemma PlacedLength(iov: seq<Bytes>, msglist: seq<Msg>, messages: seq<Pieces>, c: nat)
    requires Placed(iov, msglist, messages) && c < |messages|
    ensures |msglist| == |messages| && |messages[c]| == msglist[c].len
    ensures msglist[c].len > 0 ==> msglist[c].start < |iov| && iov[msglist[c].start] == messages[c][0]
  {
    assert PlacedAt(iov, msglist, messages, c);
    if messages[c] != [] {
      PlacedShift(iov, msglist, messages, c);
    }
  }

  lemma SameCount(iov: seq<Bytes>, msglist: seq<Msg>, messages: seq<Pieces>)
    requires Packed(iov, msglist, messages)
    ensures |msglist| == |messages|
  {
  }

  lemma CurrentLength(iov: seq<Bytes>, msglist: seq<Msg>, messages: seq<Pieces>, i: nat)
    requires Packed(iov, msglist, messages) && i < |messages|
    ensures |msglist| == |messages| && msglist[i].len == |messages[i]|
  {
    assert PackedAt(msglist, messages, i);
  }

  lemma FitsAtLast(udp: bool, messages: seq<Pieces>)
    requires AllFit(udp, messages) && messages != []
    ensures FitsAt(udp, messages, |messages| - 1)
  {
  }

  /** The payload after the last message has taken the first bytes of a buffer. */
  lemma PieceAdded(udp: bool, messages: seq<Pieces>, buf: Bytes, len: nat)
    requires messages != [] && len <= |buf| && (udp ==> messages[|messages| - 1] != [])
    ensures var last := |messages| - 1;
            var messages' := messages[last := messages[last] + [buf[..len]]];
            && Payload(udp, messages') + buf[len..] == Payload(udp, messages) + buf
            && messages'[..last] == messages[..last]
  {
    hide Payload, Body, Flatten;
    var last := |messages| - 1;
    var m := messages[last];
    var messages' := messages[last := m + [buf[..len]]];
    assert messages == messages[..last] + [m] && messages' == messages[..last] + [m + [buf[..len]]];
    PayloadSnoc(udp, messages[..last], m);
    PayloadSnoc(udp, messages[..last], m + [buf[..len]]);
    BodySnoc(udp, m, buf[..len]);
    Rejoin(Payload(udp, messages[..last]), Body(udp, m), buf, len);
  }

  lemma Rejoin(x: Bytes, y: Bytes, buf: Bytes, len: nat)
    requires len <= |buf|
    ensures x + (y + buf[..len]) + buf[len..] == x + y + buf
  {
    assert buf == buf[..len] + buf[len..];
  }

  /** Filling a TCP connection's queue with buffers, then sending with whatever partial sends
      the socket makes: sent bytes followed by queued bytes are always the buffers' bytes.
      Transmit says it is complete only when all are sent, and if the socket keeps taking
      bytes it does say so, if and only if no message of the queue is without bytes. */
  method SendAll(buffers: seq<Bytes>, outcomes: seq<Sent>) returns (sent: Bytes, left: Bytes, r: Result)
    ensures sent + left == Flatten(buffers)
    ensures r == Complete ==> left == [] && Sendable(QueuedAll(false, buffers), 0)
    ensures Willing(outcomes) && |Flatten(buffers)| < |outcomes| && Sendable(QueuedAll(false, buffers), 0) ==> r == Complete
  {
    hide Payload, Rest, Packed, AllFit, Sendable, QueuedAll, Pieced, Flatten, Upcoming;
    var c := Filled(buffers);
    c.ReadyToSend();
    WholeQueue(c.messages);
    sent, left := [], Flatten(buffers);
    ghost var can := Sendable(QueuedAll(false, buffers), 0);
    r := Incomplete;
    var i := 0;
    while i < |outcomes| && r != Complete && r != HardError
      invariant i <= |outcomes| && fresh(c) && c.Sending() && left == Rest(c.messages, c.msgCurr)
      invariant sent + left == Flatten(buffers) && (r == Complete ==> left == [] && can)
      invariant can == Sendable(c.messages, c.msgCurr)
      invariant Willing(outcomes) && can && r != Complete ==> r == Incomplete && i <= |sent|
    {
      var outcome := c.SendMsg(outcomes[i]);
      ComingBytes(c.messages, c.msgCurr);
      r := c.Transmit(outcome);
      if r == Incomplete {
        Moved(sent, left, outcome.n);
        sent := sent + left[..outcome.n];
        left := left[outcome.n..];
      }
      i := i + 1;
    }
  }

  /** The socket takes at least a byte each time. */
  predicate Willing(outcomes: seq<Sent>) {
    forall i | 0 <= i < |outcomes| :: outcomes[i].Count? && 0 < outcomes[i].n
  }

  /** The bytes of the upcoming message are the first of those left. */
  lemma ComingBytes(messages: seq<Pieces>, c: nat)
    requires c <= |messages|
    ensures var cur := Upcoming(messages, c);
            cur < |messages| ==>
              && |Flatten<Byte>(messages[cur])| <= |Rest(messages, c)|
              && (Sendable(messages, c) ==> Flatten<Byte>(messages[cur]) != [])
  {
    if c < |messages| && messages[c] == [] {
      NothingLeft(messages[c]);
    }
  }

  lemma Moved(sent: Bytes, left: Bytes, n: nat)
    requires n <= |left|
    ensures (sent + left[..n]) + left[n..] == sent + left
  {
  }

  lemma WholeQueue(messages: seq<Pieces>)
    ensures Rest(messages, 0) == Payload(false, messages)
  {
    RestFrom(messages, 0);
    PayloadTcp(messages);
    assert messages[0..] == messages;
  }

  method Filled(buffers: seq<Bytes>) returns (c: Conn)
    ensures fresh(c) && !c.udp && c.Filling() && Payload(false, c.messages) == Flatten(buffers) && c.messages == QueuedAll(false, buffers)
  {
    c := new Conn(false);
    for i := 0 to |buffers|
      invariant fresh(c) && !c.udp && c.Filling() && Payload(false, c.messages) == Flatten(buffers[..i])
      invariant c.messages == QueuedAll(false, buffers[..i])
    {
      assert buffers[..i + 1] == buffers[..i] + [buffers[i]];
      FlattenSnoc(buffers[..i], buffers[i]);
      c.AddIov(buffers[i]);
    }
    assert buffers[..|buffers|] == buffers;
  }
}
