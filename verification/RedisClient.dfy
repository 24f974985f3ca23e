/** The Redis client around the parser: the command printer, the blocking command of the sync
    client, and the pipelined write and handler queues of the async client. */
module RedisClients {
  import opened Basics
  import opened Bytes
  import opened RespDecoder
  import opened Fragmentation
  import M = RespMachine
  import opened RedisParsers

  datatype Option<T> = None | Some(value: T)

  /** Errors given to the client's error handler, which records them and returns. */
  datatype ClientError = Transport | Protocol | Unexpected(value: Value)

  /** A handler is known by its identity only: what user code does is not part of the model. */
  type Handler = nat

  /** A command as RESP sees it: an array of bulk strings. */
  function Command(items: seq<seq<byte>>): (r: Reply)
    ensures r.Multi? && |r.replies| == |items|
    ensures forall i :: 0 <= i < |items| ==> r.replies[i] == Blob(items[i])
  {
    Multi(seq(|items|, i requires 0 <= i < |items| => Blob(items[i])))
  }

  lemma {:induction false} EncodeAllSnoc(rs: seq<Reply>, r: Reply)
    ensures EncodeAll(rs + [r]) == EncodeAll(rs) + Encode(r)
  {
    hide Encode;
    if rs == [] {
      assert rs + [r] == [r] && EncodeAll([r]) == Encode(r) + EncodeAll([r][1..]);
    } else {
      assert (rs + [r])[0] == rs[0] && (rs + [r])[1..] == rs[1..] + [r];
      EncodeAllSnoc(rs[1..], r);
      Associative(Encode(rs[0]), EncodeAll(rs[1..]), Encode(r));
    }
  }

  lemma BlobPieces(before: seq<byte>, p: seq<byte>)
    ensures before + [DOLLAR] + Decimal(|p|) + CRLF + p + CRLF == before + Encode(Blob(p))
  {
    hide Decimal, Encode;
    var d, h := Decimal(|p|), HeaderLine(DOLLAR, Decimal(|p|));
    Associative(before, [DOLLAR], d);
    Associative(before, [DOLLAR] + d, CRLF);
    Associative(before + h, p, CRLF);
    Associative(before, h, p + CRLF);
    EncodeBlob(p);
  }

  lemma EncodeBlob(p: seq<byte>)
    ensures Encode(Blob(p)) == HeaderLine(DOLLAR, Decimal(|p|)) + (p + CRLF)
  {
  }

  /** `makeCommand`: grows the bytes piece by piece. */
  method MakeCommand(items: seq<seq<byte>>) returns (result: seq<byte>)
    ensures result == Encode(Command(items))
  {
    hide Encode, Decimal, EncodeAll;
    result := [];
    result := result + [STAR];
    result := result + Decimal(|items|);
    result := result + CRLF;
    ghost var header := result;
    assert header == HeaderLine(STAR, SignedDecimal(|items|));
    EncodeNothing();
    ghost var replies := Command(items).replies;
    var it := 0;
    while it < |items|
      invariant 0 <= it <= |items|
      invariant result == header + EncodeAll(replies[..it])
    {
      ghost var before := result;
      result := result + [DOLLAR];
      result := result + Decimal(|items[it]|);
      result := result + CRLF;
      result := result + items[it];
      result := result + CRLF;
      BlobPieces(before, items[it]);
      assert replies[..it + 1] == replies[..it] + [replies[it]];
      EncodeAllSnoc(replies[..it], replies[it]);
      Associative(header, EncodeAll(replies[..it]), Encode(replies[it]));
      it := it + 1;
    }
    assert replies[..|items|] == replies;
    EncodeMulti(replies);
  }

  lemma EncodeNothing()
    ensures EncodeAll([]) == []
  {
  }

  lemma EncodeMulti(rs: seq<Reply>)
    ensures Encode(Multi(rs)) == HeaderLine(STAR, SignedDecimal(|rs|)) + EncodeAll(rs)
  {
  }

  /** Command round trip: parsing a printed command under any cut into reads yields exactly its
      arguments, empty ones and ones with CR or LF included. */
  lemma CommandRoundTrip(items: seq<seq<byte>>, chunks: seq<seq<byte>>)
    requires |items| <= LONG_MAX && forall i :: 0 <= i < |items| ==> |items[i]| <= LONG_MAX
    requires Concat(chunks) == Encode(Command(items))
    requires forall i :: 0 <= i < |chunks| ==> chunks[i] != []
    ensures var f := Feed(M.Start, [], chunks);
            && chunks != [] && f.calls == |chunks| && f.last.Finished?
            && f.last.used == |chunks[|chunks| - 1]|
            && f.last.value == Array(seq(|items|, i requires 0 <= i < |items| => Value.Bulk(items[i])))
  {
    EncodingInPieces(Command(items), chunks);
    var bulks := seq(|items|, i requires 0 <= i < |items| => Value.Bulk(items[i]));
    assert ValuesOf(Command(items).replies) == bulks;
  }

  /** A command of two arguments, byte for byte: `GET` and the empty string. */
  lemma KnownCommand()
    ensures Encode(Command([[71, 69, 84], []]))
            == [42, 50, 13, 10, 36, 51, 13, 10, 71, 69, 84, 13, 10, 36, 48, 13, 10, 13, 10]
  {
    hide SignedDecimal, EncodeAll;
    KnownNumbers();
    assert SignedDecimal(3) == [51] by { ThreeIsOneDigit(); }
    assert Command([[71, 69, 84], []]) == Multi([Blob([71, 69, 84]), Blob([])]);
    TwoReplies(Blob([71, 69, 84]), Blob([]));
  }

  lemma ThreeIsOneDigit()
    ensures SignedDecimal(3) == [51]
  {
  }

  // ---------------------------------------------------------------------------------------

  /** What a blocking command ends in: it returns a value, or waits for more reads. */
  datatype SyncResult = Returned(value: Value) | Waiting

  /** Read number `k` of `input`, by a parser that set out from `(l0, fs0)` and stands at `(l, fs)`
      after the reads before it, judged like the whole input. */
  lemma ReadStep(l0: M.Lex, fs0: seq<M.Frame>, l: M.Lex, fs: seq<M.Frame>, input: seq<seq<byte>>, k: nat)
    requires k < |input| && M.Run(l0, fs0, Concat(input[..k])) == M.Paused(l, fs)
    ensures |Concat(input[..k + 1])| == |Concat(input[..k])| + |input[k]|
    ensures var r, before := M.Run(l, fs, input[k]), |Concat(input[..k])|;
            match r
            case Paused(_, _) => M.Run(l0, fs0, Concat(input[..k + 1])) == r
            case Finished(v, n) => 1 <= n <= |input[k]| && M.Run(l0, fs0, Concat(input)) == M.Finished(v, before + n)
            case Failed(n) => 1 <= n <= |input[k]| && M.Run(l0, fs0, Concat(input)) == M.Failed(before + n)
  {
    hide M.Run;
    var before, c, rest := Concat(input[..k]), input[k], input[k + 1..];
    assert input[..k + 1] == input[..k] + [c] && input == input[..k + 1] + rest;
    ConcatSnoc(input[..k], c);
    ConcatAppend(input[..k + 1], rest);
    Associative(before, c, Concat(rest));
    M.RunAppend(l0, fs0, before, c);
    M.RunAppend(l0, fs0, before, c + Concat(rest));
    M.RunAppend(l, fs, c, Concat(rest));
    M.RunBounds(l, fs, c);
  }

  /** The arrays left behind when the read `last` fails after the bytes `before`. */
  ghost function LeftBehind(l: M.Lex, fs: seq<M.Frame>, before: seq<byte>, last: seq<byte>): seq<M.Frame>
  {
    match M.Run(l, fs, before)
    case Paused(l', fs') => Residue(l', fs', last)
    case _ => []
  }

  /** One call of the parser, and of `result` if it completes a reply, by a client that leaves no value
      untaken. */
  method ParseOne(parser: RedisParser, data: seq<byte>) returns (n: nat, r: ParseResult, v: Value)
    requires parser.Valid() && parser.Now().base == []
    modifies parser
    ensures parser.Valid()
    ensures var was := old(parser.Now());
            match M.Run(was.lex, was.frames, data)
            case Paused(l, fs) => r == Incompleted && n == |data| && parser.Now() == View(l, fs, [])
            case Finished(w, k) => r == Completed && n == k && v == w && parser.Now() == View(M.Start, [], [])
            case Failed(k) =>
              r == Error && n == k && parser.Now() == View(M.Start, Residue(was.lex, was.frames, data), [])
  {
    hide M.Run, LexOf, FramesOf, Below, Residue, TakesTop;
    ghost var run := M.Run(parser.Now().lex, parser.Now().frames, data);
    n, r := parser.Parse(data);
    v := Nil;
    if r == Completed {
      ghost var stack := parser.Now().base;
      v := parser.Result();
      OnlyValue(stack, v, parser.Now().base, run.value);
    }
  }

  /** What is left of read number `taken - 1` behind byte `n` of the input. */
  ghost function Dropped(input: seq<seq<byte>>, taken: nat, n: nat): seq<byte>
    requires 1 <= taken <= |input| && |Concat(input[..taken - 1])| <= n <= |Concat(input[..taken])|
  {
    ReadIsLast(input, taken);
    input[taken - 1][n - |Concat(input[..taken - 1])|..]
  }

  lemma ReadIsLast(input: seq<seq<byte>>, taken: nat)
    requires 1 <= taken <= |input|
    ensures Concat(input[..taken]) == Concat(input[..taken - 1]) + input[taken - 1]
  {
    assert input[..taken] == input[..taken - 1] + [input[taken - 1]];
    ConcatSnoc(input[..taken - 1], input[taken - 1]);
  }

  lemma RestIsDropped(input: seq<seq<byte>>, taken: nat, n: nat)
    requires 1 <= taken <= |input| && |Concat(input[..taken - 1])| <= n <= |Concat(input[..taken])|
    ensures Concat(input[..taken])[n..] == Dropped(input, taken, n)
    ensures Dropped(input, taken, n) == [] <==> n == |Concat(input[..taken])|
  {
    ReadIsLast(input, taken);
  }

  /** Two replies in one read: the first is the answer, and all of the second is dropped. */
  lemma SecondReplyIsDropped(r: Reply, s: Reply)
    requires WellFormed(r)
    ensures var input := [Encode(r) + Encode(s)];
            && Concat(input[..0]) == [] && Concat(input[..1]) == Concat(input) == Encode(r) + Encode(s)
            && M.Run(M.Start, [], Concat(input)) == M.Finished(ValueOf(r), |Encode(r)|)
            && Dropped(input, 1, |Encode(r)|) == Encode(s) != []
  {
    hide M.Run, Decode, Encode;
    var input := [Encode(r) + Encode(s)];
    assert input[..1] == input && input[..0] == [];
    ConcatSnoc([], Encode(r) + Encode(s));
    assert [] + input == input && [] + (Encode(r) + Encode(s)) == Encode(r) + Encode(s);
    DecodeInvertsEncode(r, Encode(s));
    M.RunIsDecode(Encode(r) + Encode(s));
  }

  class SyncClient {
    const parser: RedisParser
    var sent: seq<byte>
    var errors: seq<ClientError>

    constructor ()
      ensures Valid() && Fresh() && sent == [] && errors == [] && fresh(parser)
    {
      parser := new RedisParser();
      sent, errors := [], [];
    }

    /** No untaken value; but an earlier error may have left arrays suspended. */
    ghost predicate Valid()
      reads this, parser
    {
      parser.Valid() && parser.Now().base == []
    }

    /** The parser is as good as new. */
    ghost predicate Fresh()
      reads this, parser
      requires Valid()
    {
      parser.Now() == View(M.Start, [], [])
    }

    /** The inner loop of `doSyncCommand` over one read: a call that is answered Incompleted has
        taken everything, so the loop ends after it. */
    method ParseRead(inbuff: seq<byte>) returns (r: ParseResult, v: Value)
      requires Valid()
      modifies parser
      ensures Valid()
      ensures var was := old(parser.Now());
              match M.Run(was.lex, was.frames, inbuff)
              case Paused(l, fs) => r == Incompleted && parser.Now() == View(l, fs, [])
              case Finished(w, _) => r == Completed && v == w && Fresh()
              case Failed(_) => r == Error && parser.Now() == View(M.Start, Residue(was.lex, was.frames, inbuff), [])
    {
      hide M.Run, LexOf, FramesOf, Residue;
      v := Nil;
      r := Incompleted;
      ghost var was := parser.Now();
      NothingRead(was.lex, was.frames);
      var pos := 0;
      while pos < |inbuff|
        invariant pos == 0 || pos == |inbuff|
        invariant Valid() && r == Incompleted
        invariant pos == 0 ==> parser.Now() == was
        invariant pos > 0 ==> M.Run(was.lex, was.frames, inbuff) == M.Paused(parser.Now().lex, parser.Now().frames)
        decreases |inbuff| - pos
      {
        assert inbuff[0..] == inbuff;
        var n;
        n, r, v := ParseOne(parser, inbuff[pos..]);
        if r == Completed {
          return;
        } else if r == Incompleted {
          pos := pos + n;
        } else {
          return;
        }
      }
    }

    /** `doSyncCommand`, where `input` is what the socket will deliver, read by read. The answer is that
        of one run over the whole input, at the read that holds the deciding byte. A value leaves a
        parser that is as good as new, and what follows its last byte in that read is dropped: nothing
        is lost exactly if the read ends with it. An error leaves a parser as good as new exactly if it
        leaves no array behind. */
    method DoSyncCommand(items: seq<seq<byte>>, writeFails: bool, input: seq<seq<byte>>)
      returns (result: SyncResult, taken: nat)
      requires Valid()
      modifies this`sent, this`errors, parser
      ensures Valid()
      ensures writeFails ==> result == Returned(Nil) && taken == 0 && sent == old(sent)
                             && errors == old(errors) + [Transport] && parser.Now() == old(parser.Now())
      ensures !writeFails ==> sent == old(sent) + Encode(Command(items)) && taken <= |input|
      ensures !writeFails ==>
                var was := old(parser.Now());
                match M.Run(was.lex, was.frames, Concat(input))
                case Paused(l, fs) =>
                  result == Waiting && taken == |input| && errors == old(errors) && parser.Now() == View(l, fs, [])
                case Finished(v, n) =>
                  result == Returned(v) && errors == old(errors) && Fresh() && taken >= 1
                  && |Concat(input[..taken - 1])| < n <= |Concat(input[..taken])|
                  && Concat(input[..taken])[n..] == Dropped(input, taken, n)
                  && (Dropped(input, taken, n) == [] <==> n == |Concat(input[..taken])|)
                case Failed(n) =>
                  result == Returned(Nil) && errors == old(errors) + [Protocol] && taken >= 1
                  && |Concat(input[..taken - 1])| < n <= |Concat(input[..taken])|
                  && var left := LeftBehind(was.lex, was.frames, Concat(input[..taken - 1]), input[taken - 1]);
                     parser.Now() == View(M.Start, left, []) && (Fresh() <==> left == [])
      ensures !writeFails && old(Fresh()) ==>
                match Decode(Concat(input))
                case NeedMore => result == Waiting
                case Done(v, _) => result == Returned(v) && Fresh()
                case Bad(_) => result == Returned(Nil)
    {
      hide M.Run, Decode, Encode, LexOf, FramesOf, Residue;
      if writeFails {
        errors := errors + [Transport];
        return Returned(Nil), 0;
      }
      var data := MakeCommand(items);
      sent := sent + data;

      M.RunIsDecode(Concat(input));
      ghost var was := parser.Now();
      NothingRead(was.lex, was.frames);
      taken := 0;
      while taken < |input|
        invariant taken <= |input| && Valid()
        invariant M.Run(was.lex, was.frames, Concat(input[..taken])) == M.Paused(parser.Now().lex, parser.Now().frames)
        invariant errors == old(errors) && sent == old(sent) + data
      {
        ReadStep(was.lex, was.frames, parser.Now().lex, parser.Now().frames, input, taken);
        var r, v := ParseRead(input[taken]);
        taken := taken + 1;
        if r == Completed {
          RestIsDropped(input, taken, M.Run(was.lex, was.frames, Concat(input)).used);
          return Returned(v), taken;
        } else if r == Error {
          errors := errors + [Protocol];
          return Returned(Nil), taken;
        }
      }
      assert input[..taken] == input;
      result := Waiting;
    }
  }

  lemma NothingRead(l: M.Lex, fs: seq<M.Frame>)
    ensures M.Run(l, fs, []) == M.Paused(l, fs) && Concat([]) == []
  {
  }

  // ---------------------------------------------------------------------------------------

  datatype QueueItem = QueueItem(handler: Handler, buff: seq<byte>)

  /** The bytes of queued commands, in order. */
  ghost function BytesOf(items: seq<QueueItem>): seq<byte>
  {
    if items == [] then [] else items[0].buff + BytesOf(items[1..])
  }

  lemma BytesOfSnoc(items: seq<QueueItem>, x: QueueItem)
    ensures BytesOf(items + [x]) == BytesOf(items) + x.buff
  {
    if items == [] {
      assert items + [x] == [x] && BytesOf([x]) == x.buff + BytesOf([x][1..]);
    } else {
      assert (items + [x])[1..] == items[1..] + [x];
      BytesOfSnoc(items[1..], x);
    }
  }

  /** The bytes of queued commands that are still to be sent when `partial` of them went already. */
  ghost function Unsent(items: seq<QueueItem>, partial: nat): seq<byte>
  {
    if partial <= |BytesOf(items)| then BytesOf(items)[partial..] else []
  }

  /** The bytes sent and those still to be sent are the issued commands. */
  ghost predicate SentInOrder(sent: seq<byte>, queue: seq<QueueItem>, partial: nat, issued: seq<QueueItem>)
  {
    sent + Unsent(queue, partial) == BytesOf(issued)
  }

  lemma UnsentSnoc(items: seq<QueueItem>, partial: nat, x: QueueItem)
    requires partial == 0 || (items != [] && partial <= |items[0].buff|)
    ensures Unsent(items + [x], partial) == Unsent(items, partial) + x.buff
  {
    BytesOfSnoc(items, x);
    var all := BytesOf(items);
    assert (all + x.buff)[partial..] == all[partial..] + x.buff;
  }

  /** The front command, sent whole or in part. */
  lemma UnsentFront(items: seq<QueueItem>, some: nat)
    requires items != [] && some <= |items[0].buff|
    ensures Unsent(items, 0) == items[0].buff + Unsent(items[1..], 0)
    ensures Unsent(items, 0) == items[0].buff[..some] + Unsent(items, some)
  {
    var all := BytesOf(items);
    assert all[0..] == all && BytesOf(items[1..])[0..] == BytesOf(items[1..]);
    assert all == items[0].buff[..some] + all[some..];
  }

  lemma NothingUnsent()
    ensures SentInOrder([], [], 0, []) && HandlersOf([]) == []
  {
  }

  lemma HandlersSnoc(items: seq<QueueItem>, x: QueueItem)
    ensures HandlersOf(items + [x]) == HandlersOf(items) + [x.handler]
  {
  }

  ghost function HandlersOf(items: seq<QueueItem>): seq<Handler>
  {
    seq(|items|, i requires 0 <= i < |items| => items[i].handler)
  }

  /** The k-th handler gets the k-th reply. */
  ghost function Match(hs: seq<Handler>, vs: seq<Value>): seq<(Handler, Value)>
  {
    seq(Min(|hs|, |vs|), i requires 0 <= i < Min(|hs|, |vs|) => (hs[i], vs[i]))
  }

  /** Handlers still waiting after the replies `vs`. */
  ghost function Waits(hs: seq<Handler>, vs: seq<Value>): seq<Handler>
  {
    hs[Min(|hs|, |vs|)..]
  }

  /** The replies that nobody waits for, as errors. */
  ghost function Surplus(hs: seq<Handler>, vs: seq<Value>): seq<ClientError>
  {
    seq(|vs| - Min(|hs|, |vs|), i requires 0 <= i < |vs| - Min(|hs|, |vs|) => Unexpected(vs[Min(|hs|, |vs|) + i]))
  }

  lemma NoReplies(hs: seq<Handler>)
    ensures Match(hs, []) == [] && Waits(hs, []) == hs && Surplus(hs, []) == []
  {
  }

  lemma OneMoreReply(hs: seq<Handler>, vs: seq<Value>, v: Value)
    ensures Waits(hs, vs) != [] ==>
              && Match(hs, vs + [v]) == Match(hs, vs) + [(Waits(hs, vs)[0], v)]
              && Waits(hs, vs + [v]) == Waits(hs, vs)[1..]
              && Surplus(hs, vs + [v]) == Surplus(hs, vs)
    ensures Waits(hs, vs) == [] ==>
              && Match(hs, vs + [v]) == Match(hs, vs)
              && Waits(hs, vs + [v]) == []
              && Surplus(hs, vs + [v]) == Surplus(hs, vs) + [Unexpected(v)]
  {
    if |vs| < |hs| {
      assert Waits(hs, vs)[0] == hs[|vs|];
    } else {
      assert forall i :: 0 <= i < |hs| ==> (vs + [v])[i] == vs[i];
    }
  }

  /** Matching goes on where it stopped. */
  lemma MatchAppend(hs: seq<Handler>, us: seq<Value>, vs: seq<Value>, more: seq<Handler>)
    requires |us| + |vs| <= |hs|
    ensures Match(hs, us + vs) == Match(hs, us) + Match(Waits(hs, us), vs)
    ensures Waits(hs, us + vs) == Waits(Waits(hs, us), vs)
    ensures Match(hs + more, us) == Match(hs, us) && Waits(hs + more, us) == Waits(hs, us) + more
  {
    assert forall i :: 0 <= i < |vs| ==> (us + vs)[|us| + i] == vs[i];
  }

  /** No surplus: all replies so far are matched to all handlers so far. */
  lemma StillMatched(hs: seq<Handler>, us: seq<Value>, all: seq<Value>)
    requires us <= all && |us| <= |hs| && Surplus(Waits(hs, us), all[|us|..]) == []
    ensures |all| <= |hs|
    ensures Match(hs, all) == Match(hs, us) + Match(Waits(hs, us), all[|us|..])
    ensures Waits(hs, all) == Waits(Waits(hs, us), all[|us|..])
  {
    assert us + all[|us|..] == all;
    assert |Surplus(Waits(hs, us), all[|us|..])| == 0;
    MatchAppend(hs, us, all[|us|..], []);
  }

  /** All replies so far had a handler. */
  predicate NoneUnexpected(errors: seq<ClientError>)
  {
    forall i :: 0 <= i < |errors| ==> !errors[i].Unexpected?
  }

  lemma EarlierErrors(errors: seq<ClientError>, e: ClientError)
    ensures NoneUnexpected(errors + [e]) ==> NoneUnexpected(errors)
  {
    assert forall i :: 0 <= i < |errors| ==> (errors + [e])[i] == errors[i];
  }

  lemma SurplusIsUnexpected(hs: seq<Handler>, vs: seq<Value>, reported: seq<ClientError>, more: seq<ClientError>)
    ensures NoneUnexpected(reported + Surplus(hs, vs) + more) ==> NoneUnexpected(reported) && Surplus(hs, vs) == []
  {
    var all := reported + Surplus(hs, vs) + more;
    assert forall i :: 0 <= i < |reported| ==> reported[i] == all[i];
    if Surplus(hs, vs) != [] {
      assert all[|reported|] == Surplus(hs, vs)[0];
    }
  }

  lemma NothingReceived()
    ensures DecodeAll([]) == Stream([], [], false) && Holds(M.Start, [], [])
    ensures Match([], []) == [] && Waits([], []) == []
  {
    FreshHolds();
    HoldsNeedsMore(M.Start, [], []);
  }

  class AsyncClient {
    const parser: RedisParser
    var queue: seq<QueueItem>
    var handlers: seq<Handler>
    /** The buffer handed to the write that is in flight, and whether a read is posted. */
    var inFlight: Option<seq<byte>>
    var reading: bool
    var errors: seq<ClientError>
    ghost var issued: seq<QueueItem>
    ghost var sent: seq<byte>
    ghost var writeFailed: bool
    ghost var partial: nat
    ghost var received: seq<byte>
    ghost var calls: seq<(Handler, Value)>

    /** A connected client: `handleAsyncConnect` has posted the first read. */
    constructor ()
      ensures Valid() && fresh(parser) && reading
      ensures issued == [] && received == [] && errors == [] && calls == []
    {
      parser := new RedisParser();
      queue, handlers, inFlight, reading, errors := [], [], None, true, [];
      issued, sent, writeFailed, partial, received, calls := [], [], false, 0, [], [];
      new;
      hide *;
      StartsInOrder();
    }

    lemma StartsInOrder()
      requires queue == issued == [] && handlers == [] && inFlight == None && errors == []
      requires sent == [] && !writeFailed && partial == 0 && received == [] && calls == []
      requires parser.state == State.Start && parser.arrayStack == [] && parser.valueStack == []
      ensures Valid()
    {
      hide DecodeAll, Holds, Match, Waits, SentInOrder, HandlersOf;
      assert parser.Valid() && parser.Now() == View(M.Start, [], []);
      NothingReceived();
      NothingUnsent();
    }

    /** The write side: a write is in flight exactly while commands are queued, it carries the
        front one, and the bytes sent and those still to be sent are the issued commands in order. A
        failed write may have sent a part of its command, and stalls the queue for good. */
    ghost predicate WritesInOrder()
      reads this
    {
      && SentInOrder(sent, queue, partial, issued)
      && (!writeFailed ==> partial == 0 && inFlight == if queue == [] then None else Some(queue[0].buff))
      && (writeFailed ==> queue != [] && inFlight == None && partial <= |queue[0].buff|)
    }

    /** The parser is in step with the stream read so far. */
    ghost predicate InStep()
      reads this, parser
    {
      && parser.Valid() && parser.Now().base == [] && !DecodeAll(received).broken
      && Holds(parser.Now().lex, parser.Now().frames, DecodeAll(received).tail)
    }

    /** The read side: while a read is posted, the parser holds the unfinished reply of the
        stream; and as long as no reply came unexpected, the k-th one went to the handler of the k-th
        command and the other handlers wait in order, whatever happened to writes and reads. */
    ghost predicate RepliesInOrder()
      reads this, parser
    {
      && (reading ==> InStep())
      && (NoneUnexpected(errors) ==>
            var hs, vs := HandlersOf(issued), DecodeAll(received).replies;
            |vs| <= |hs| && calls == Match(hs, vs) && handlers == Waits(hs, vs))
    }

    ghost predicate Valid()
      reads this, parser
    {
      WritesInOrder() && RepliesInOrder()
    }

    method DoAsyncCommand(buff: seq<byte>, handler: Handler)
      requires Valid()
      modifies this`queue, this`handlers, this`inFlight, this`issued
      ensures Valid()
      ensures issued == old(issued) + [QueueItem(handler, buff)]
      ensures queue == old(queue) + [QueueItem(handler, buff)] && handlers == old(handlers) + [handler]
      ensures inFlight == if old(queue) == [] then Some(buff) else old(inFlight)
    {
      hide DecodeAll, Holds, Match, Waits, BytesOf, Unsent, HandlersOf;
      var item := QueueItem(handler, buff);
      UnsentSnoc(queue, partial, item);
      BytesOfSnoc(issued, item);
      Associative(sent, Unsent(queue, partial), buff);
      HandlersSnoc(issued, item);
      if NoneUnexpected(errors) { MatchAppend(HandlersOf(issued), DecodeAll(received).replies, [], [handler]); }
      queue := queue + [item];
      issued := issued + [item];
      handlers := handlers + [item.handler];
      if |queue| == 1 {
        inFlight := Some(item.buff);
      }
    }

    /** The completion of the write in flight; a failed one has sent `some` bytes of its command. */
    method AsyncWrite(failed: bool, some: nat)
      requires Valid() && inFlight.Some? && some <= |inFlight.value|
      modifies this`queue, this`inFlight, this`errors, this`sent, this`writeFailed, this`partial
      ensures Valid()
      ensures failed ==> errors == old(errors) + [Transport] && queue == old(queue)
                         && sent == old(sent) + old(inFlight).value[..some]
      ensures !failed ==> errors == old(errors) && queue == old(queue)[1..]
                          && sent == old(sent) + old(inFlight).value
    {
      hide DecodeAll, Holds, Match, Waits, HandlersOf, BytesOf, Unsent;
      inFlight := None;
      var first := queue[0].buff;
      UnsentFront(queue, if failed then some else 0);
      if failed {
        Associative(sent, first[..some], Unsent(queue, some));
        EarlierErrors(errors, Transport);
        errors := errors + [Transport];
        sent := sent + first[..some];
        writeFailed, partial := true, some;
        return;
      }
      sent := sent + first;
      Associative(old(sent), first, Unsent(queue[1..], 0));
      queue := queue[1..];
      if queue != [] {
        inFlight := Some(queue[0].buff);
      }
    }

    /** The replies `vs` have been dispatched to `hs`, the handlers that waited: the k-th reply to the
        k-th handler, and the surplus to the error handler. */
    ghost predicate Served(hs: seq<Handler>, vs: seq<Value>, called: seq<(Handler, Value)>, reported: seq<ClientError>)
      reads this
    {
      calls == called + Match(hs, vs) && handlers == Waits(hs, vs) && errors == reported + Surplus(hs, vs)
    }

    /** One more reply: it goes to the handler whose turn it is. */
    method DoProcessMessage(v: Value, ghost hs: seq<Handler>, ghost vs: seq<Value>,
                            ghost called: seq<(Handler, Value)>, ghost reported: seq<ClientError>)
      requires Served(hs, vs, called, reported)
      modifies this`handlers, this`errors, this`calls
      ensures Served(hs, vs + [v], called, reported)
    {
      hide Match, Waits, Surplus;
      OneMoreReply(hs, vs, v);
      if handlers != [] {
        calls := calls + [(handlers[0], v)];
        handlers := handlers[1..];
      } else {
        errors := errors + [Unexpected(v)];
      }
    }

    /** The completion of the posted read. Every reply that `data` completes is dispatched, in
        order, to the handlers that wait; the surplus is reported; a malformed byte ends reading. */
    method AsyncRead(failed: bool, data: seq<byte>)
      requires Valid() && reading
      modifies this`handlers, this`errors, this`calls, this`received, this`reading, parser
      ensures Valid()
      ensures failed || data == [] ==>
                errors == old(errors) + [Transport] && !reading && received == old(received)
                && calls == old(calls) && handlers == old(handlers)
      ensures !failed && data != [] ==>
                received == old(received) + data && reading == !DecodeAll(received).broken
                && Dispatches(DecodeAll(old(received)).replies, DecodeAll(received),
                              old(handlers), old(calls), old(errors))
      ensures !failed && data != [] ==>
                OneByOne(DecodeAll(old(received)).replies, DecodeAll(received), old(handlers), old(calls), old(errors))
      ensures KthToKth()
    {
      hide M.Run, Decode, DecodeAll, Holds, Match, Waits, Surplus, SentInOrder, HandlersOf, LexOf, FramesOf,
        KthToKth, OneByOne, Dispatches, NoneUnexpected;
      reading := false;
      if failed || data == [] {
        EarlierErrors(errors, Transport);
        errors := errors + [Transport];
        OrderIsKthToKth();
        return;
      }
      ReadReplies(data);
      RepliesStayInOrder(HandlersOf(issued), DecodeAll(old(received)).replies, DecodeAll(received),
                         old(handlers), old(calls), old(errors));
      DispatchesOneByOne(DecodeAll(old(received)).replies, DecodeAll(received), old(handlers), old(calls), old(errors));
      OrderIsKthToKth();
    }

    /** As long as no reply came unexpected: call number k was made to the handler of command number k, with
        reply number k of the stream, and the handlers of the other commands wait, in order. */
    ghost predicate KthToKth()
      reads this
    {
      NoneUnexpected(errors) ==>
        var vs := DecodeAll(received).replies;
        && |calls| == |vs| && |issued| == |calls| + |handlers|
        && (forall k :: 0 <= k < |calls| ==> calls[k] == (issued[k].handler, vs[k]))
        && (forall k :: 0 <= k < |handlers| ==> handlers[k] == issued[|calls| + k].handler)
    }

    lemma OrderIsKthToKth()
      requires RepliesInOrder()
      ensures KthToKth()
    {
      hide DecodeAll, Holds, InStep;
    }

    /** What one read adds: the first of the new replies go to the handlers that waited, one each, and each
        of the others is reported as it is; a malformed byte is reported last. */
    ghost predicate OneByOne(us: seq<Value>, now: Stream, hs: seq<Handler>,
                             called: seq<(Handler, Value)>, reported: seq<ClientError>)
      reads this
    {
      && us <= now.replies
      && var news := now.replies[|us|..];
      var n := if |news| <= |hs| then |news| else |hs|;
      && |calls| == |called| + n && called <= calls && handlers == hs[n..]
      && (forall k :: 0 <= k < n ==> calls[|called| + k] == (hs[k], news[k]))
      && |errors| == |reported| + (|news| - n) + (if now.broken then 1 else 0) && reported <= errors
      && (forall j :: n <= j < |news| ==> errors[|reported| - n + j] == Unexpected(news[j]))
      && (now.broken ==> errors[|errors| - 1] == Protocol)
    }

    lemma DispatchesOneByOne(us: seq<Value>, now: Stream, hs: seq<Handler>,
                             called: seq<(Handler, Value)>, reported: seq<ClientError>)
      requires Dispatches(us, now, hs, called, reported)
      ensures OneByOne(us, now, hs, called, reported)
    {
    }

    /** What was dispatched continues what was in order before. */
    lemma RepliesStayInOrder(hs: seq<Handler>, us: seq<Value>, now: Stream, waited: seq<Handler>,
                             called: seq<(Handler, Value)>, reported: seq<ClientError>)
      requires Dispatches(us, now, waited, called, reported)
      requires NoneUnexpected(reported) ==> |us| <= |hs| && called == Match(hs, us) && waited == Waits(hs, us)
      ensures NoneUnexpected(errors) ==>
                |now.replies| <= |hs| && calls == Match(hs, now.replies) && handlers == Waits(hs, now.replies)
    {
      hide Match, Waits, Surplus;
      SurplusIsUnexpected(waited, now.replies[|us|..], reported, if now.broken then [Protocol] else []);
      if NoneUnexpected(errors) {
        StillMatched(hs, us, now.replies);
      }
    }

    /** From the replies `us` on, the stream `now` was dispatched to `hs`, the handlers that waited. */
    ghost predicate Dispatches(us: seq<Value>, now: Stream, hs: seq<Handler>,
                               called: seq<(Handler, Value)>, reported: seq<ClientError>)
      reads this
    {
      && us <= now.replies
      && var news := now.replies[|us|..];
      && calls == called + Match(hs, news)
      && handlers == Waits(hs, news)
      && errors == reported + Surplus(hs, news) + if now.broken then [Protocol] else []
    }

    /** One call of the parser, and of `result` if it completes a reply. */
    method NextReply(rest: seq<byte>) returns (n: nat, r: ParseResult, v: Value)
      requires InStep()
      modifies this`received, parser
      ensures r != Error ==> InStep()
      ensures r == Completed ==>
                1 <= n <= |rest| && received == old(received) + rest[..n]
                && DecodeAll(received).replies == DecodeAll(old(received)).replies + [v]
      ensures r != Completed ==>
                received == old(received) + rest && DecodeAll(received).broken == (r == Error)
                && DecodeAll(received).replies == DecodeAll(old(received)).replies
    {
      hide M.Run, Decode, DecodeAll, Holds, LexOf, FramesOf, Below, Residue;
      StreamStep(parser.Now().lex, parser.Now().frames, received, rest);
      n, r, v := ParseOne(parser, rest);
      if r == Completed {
        received := received + rest[..n];
        FreshHolds();
      } else {
        received := received + rest;
      }
    }

    /** The loop of `asyncRead` over one read. */
    method ReadReplies(data: seq<byte>)
      requires InStep() && data != []
      modifies this`handlers, this`errors, this`calls, this`received, this`reading, parser
      ensures received == old(received) + data && reading == !DecodeAll(received).broken
      ensures reading ==> InStep()
      ensures Dispatches(DecodeAll(old(received)).replies, DecodeAll(received),
                         old(handlers), old(calls), old(errors))
    {
      hide M.Run, Decode, DecodeAll, Holds, Match, Waits, Surplus, LexOf, FramesOf;
      NoReplies(handlers);
      ghost var first := DecodeAll(received).replies;
      ghost var news: seq<Value> := [];
      assert first + news == first;
      var pos := 0;
      while pos < |data|
        invariant 0 <= pos <= |data|
        invariant InStep() && received == old(received) + data[..pos]
        invariant DecodeAll(received).replies == first + news
        invariant Served(old(handlers), news, old(calls), old(errors))
        decreases |data| - pos
      {
        assert data[..pos] + data[pos..] == data;
        var n, r, v := NextReply(data[pos..]);
        if r == Completed {
          assert data[..pos] + data[pos..][..n] == data[..pos + n];
          DoProcessMessage(v, old(handlers), news, old(calls), old(errors));
          news := news + [v];
        } else {
          assert (first + news)[|first|..] == news;
          if r == Error {
            errors := errors + [Protocol];
          }
          reading := r == Incompleted;
          return;
        }
        pos := pos + n;
      }
      assert data[..pos] == data;
      assert (first + news)[|first|..] == news;
      reading := true;
    }
  }
}
