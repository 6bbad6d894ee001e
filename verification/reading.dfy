/**
 What read_once concludes does not depend on how the network cuts the stream into chunks, except
 for header ends in a window of three positions at the size limit.
 */
module Reading {
  import opened Wrappers
  import opened Text
  import opened Framing
  import opened Requests
  import opened HttpConnection

  datatype Outcome = Waiting(buf: string) | Verdict(state: IOState, buf: string)

  /** Readiness events one after the other: each EAGAIN ends a read_once, and the next one resumes. */
  function Feed(buf: string, net: seq<Recv>): Outcome
    decreases |net|
  {
    if net == [] then Waiting(buf)
    else match net[0]
      case Data(bytes) =>
        (match Decide(buf + bytes)
         case Some(st) => Verdict(st, buf + bytes)
         case None => Feed(buf + bytes, net[1..]))
      case Eof => Verdict(CLOSED, buf)
      case RecvBlocked => Feed(buf, net[1..])
      case RecvFailed => Verdict(ERROR, buf)
  }

  /** Feed is read_once, called again whenever it returned AGAIN. */
  lemma {:induction false} FeedIsReadOnce(buf: string, net: seq<Recv>, i: nat)
    requires i <= |net|
    ensures var r := ReadFrom(buf, net, i);
            && i <= r.used <= |net|
            && Feed(buf, net[i..]) ==
               if r.state == AGAIN then Feed(r.buf, net[r.used..]) else Verdict(r.state, r.buf)
    decreases |net| - i
  {
    hide Decide;
    if i < |net| {
      assert net[i..][0] == net[i] && net[i..][1..] == net[i + 1..];
      if net[i].Data? && Decide(buf + net[i].bytes).None? {
        FeedIsReadOnce(buf + net[i].bytes, net, i + 1);
      } else if net[i].Data? {
        var st := Decide(buf + net[i].bytes).value;
        DecideIsFinal(buf + net[i].bytes);
      }
    }
  }

  lemma DecideIsFinal(buf: string)
    ensures Decide(buf).Some? ==> Decide(buf).value in {READY, HEAD_TOO_LARGE, BODY_TOO_LARGE}
  {
    hide HeaderEnd, Parse;
  }

  /** All the bytes a list of recv results brings. */
  function Bytes(net: seq<Recv>): string {
    if net == [] then "" else (if net[0].Data? then net[0].bytes else "") + Bytes(net[1..])
  }

  lemma {:induction false} FeedBuffer(buf: string, net: seq<Recv>)
    ensures var o := Feed(buf, net);
            && buf <= o.buf <= buf + Bytes(net)
            && (o.Verdict? && o.state != CLOSED && o.state != ERROR ==> Decide(o.buf) == Some(o.state))
    decreases |net|
  {
    hide Decide;
    if net != [] {
      var now := if net[0].Data? then buf + net[0].bytes else buf;
      assert buf + Bytes(net) == now + Bytes(net[1..]);
      FeedBuffer(now, net[1..]);
    }
  }

  /** The buffer b + Bytes(net) is as much of the stream s as has been sent. */
  ghost predicate Delivers(s: string, b: string, net: seq<Recv>) {
    NetOk(net) && b + Bytes(net) <= s
  }

  /** The verdict on any part of a stream, told from where the stream's header section ends. */
  lemma DecideOnPrefix(s: string, b: string)
    requires b <= s && HeaderEnd(s).Some?
    ensures var h, req := HeaderEnd(s).value, Parse(s);
            Decide(b) ==
            if |b| < h + 4 then (if |b| > 8192 then Some(HEAD_TOO_LARGE) else None)
            else if h > 8192 then Some(HEAD_TOO_LARGE)
            else if req.contentLength > 1048576 then Some(BODY_TOO_LARGE)
            else if req.verb == "POST" && |b| < h + 4 + req.contentLength then None
            else Some(READY)
  {
    hide Parse, HeaderEnd;
    HeadStable(b, s);
    if HeaderEnd(b).Some? {
      ParseStable(b, s);
      EndFits(b);
    }
  }

  lemma EndFits(b: string)
    ensures HeaderEnd(b).Some? ==> HeaderEnd(b).value + 4 <= |b|
  {
  }

  /**
   A stream whose header section ends at most at HEADLIMIT - 3: however it is cut into chunks, with
   any pauses, two readings that both reach a verdict reach the same one and see the same request.
   */
  lemma ChunksDoNotMatter(s: string, b1: string, net1: seq<Recv>, b2: string, net2: seq<Recv>)
    requires HeaderEnd(s).Some? && HeaderEnd(s).value <= HEADLIMIT - 3
    requires Delivers(s, b1, net1) && Feed(b1, net1).Verdict? && Feed(b1, net1).state !in {CLOSED, ERROR}
    requires Delivers(s, b2, net2) && Feed(b2, net2).Verdict? && Feed(b2, net2).state !in {CLOSED, ERROR}
    ensures var o1, o2 := Feed(b1, net1), Feed(b2, net2);
            && o1.state == o2.state && o1.state in {READY, BODY_TOO_LARGE}
            && Parse(o1.buf).(body := "") == Parse(o2.buf).(body := "")
            && (o1.state == READY && Parse(o1.buf).verb == "POST" ==> Parse(o1.buf) == Parse(o2.buf))
  {
    hide Decide, HeaderEnd, Parse, Feed, Bytes, HeadLines;
    var h, p1, p2 := HeaderEnd(s).value, Feed(b1, net1).buf, Feed(b2, net2).buf;
    FeedBuffer(b1, net1);
    FeedBuffer(b2, net2);
    DecideOnPrefix(s, p1);
    DecideOnPrefix(s, p2);
    HeadStable(p1, s);
    HeadStable(p2, s);
    ParseStable(p1, s);
    ParseStable(p2, s);
    if Feed(b1, net1).state == READY && Parse(p1).verb == "POST" {
      WholeBody(p1, s);
      WholeBody(p2, s);
    }
  }

  /** Once header section and body are there, the rest of the stream changes nothing at all. */
  lemma WholeBody(b: string, s: string)
    requires b <= s && HeaderEnd(b).Some?
    requires |b| >= HeaderEnd(b).value + 4 + Parse(b).contentLength
    ensures Parse(b) == Parse(s)
  {
    hide HeadLines, FieldsOk, Words, HeaderEnd, LastValue, AnnouncedLength;
    HeadStable(b, s);
    EndFits(b);
    var h, n := HeaderEnd(b).value, Parse(b).contentLength;
    assert b[h + 4..h + 4 + n] == s[h + 4..h + 4 + n];
  }

  /** A header section that ends beyond the limit, or never, can only be refused. */
  lemma LongHeadIsRefused(s: string, b: string, net: seq<Recv>)
    requires HeaderEnd(s).None? || HeaderEnd(s).value > HEADLIMIT
    requires Delivers(s, b, net) && Feed(b, net).Verdict? && Feed(b, net).state !in {CLOSED, ERROR}
    ensures Feed(b, net).state == HEAD_TOO_LARGE
  {
    hide Parse, HeaderEnd, Feed, Bytes;
    var p := Feed(b, net).buf;
    FeedBuffer(b, net);
    HeadStable(p, s);
    if HeaderEnd(s).Some? {
      DecideOnPrefix(s, p);
    }
  }

  // ---------- The window at the limit ----------

  /** The stream holds a whole header section and, for POST, the whole body it announces. */
  predicate Complete(s: string) {
    && HeaderEnd(s).Some?
    && (Parse(s).verb == "POST" ==> |s| >= HeaderEnd(s).value + 4 + Parse(s).contentLength)
  }

  /** The stream from position k on, in chunks as large as recv's buffer. */
  function Chop(s: string, k: nat): (net: seq<Recv>)
    requires k <= |s|
    decreases |s| - k
  {
    if k == |s| then []
    else
      var e := Min(k + RECV_SIZE, |s|);
      [Data(s[k..e])] + Chop(s, e)
  }

  lemma {:induction false} ChopDelivers(s: string, k: nat)
    requires k <= |s|
    ensures NetOk(Chop(s, k)) && s[..k] + Bytes(Chop(s, k)) == s
    decreases |s| - k
  {
    if k == |s| {
      assert s[..k] == s;
    } else {
      var e := Min(k + RECV_SIZE, |s|);
      ChopDelivers(s, e);
      var net := Chop(s, e);
      assert ([Data(s[k..e])] + net)[1..] == net;
      assert s[..k] + (s[k..e] + Bytes(net)) == s[..e] + Bytes(net);
    }
  }

  lemma FeedData(buf: string, bytes: string, net: seq<Recv>)
    ensures Feed(buf, [Data(bytes)] + net) ==
            match Decide(buf + bytes) {
              case Some(st) => Verdict(st, buf + bytes)
              case None => Feed(buf + bytes, net)
            }
  {
    assert ([Data(bytes)] + net)[1..] == net;
  }

  lemma {:induction false} ChopReaches(s: string, k: nat)
    requires Complete(s) && HeaderEnd(s).value <= HEADLIMIT
    requires k < |s| && (k + RECV_SIZE >= HeaderEnd(s).value + 4 || HeaderEnd(s).value <= HEADLIMIT - 3)
    ensures Feed(s[..k], Chop(s, k)).Verdict?
    ensures Feed(s[..k], Chop(s, k)).state ==
            if Parse(s).contentLength > BODYLIMIT then BODY_TOO_LARGE else READY
    decreases |s| - k
  {
    hide Decide, Parse, HeaderEnd, Feed;
    EndFits(s);
    var e := Min(k + RECV_SIZE, |s|);
    assert s[..k] + s[k..e] == s[..e];
    FeedData(s[..k], s[k..e], Chop(s, e));
    DecideOnPrefix(s, s[..e]);
    if Decide(s[..e]).None? {
      ChopReaches(s, e);
    }
  }

  /** Full chunks up to the limit: no verdict yet when the header section ends near it. */
  function ToLimit(s: string): seq<Recv>
    requires |s| >= HEADLIMIT
  {
    [Data(s[..RECV_SIZE]), Data(s[RECV_SIZE..HEADLIMIT])]
  }

  lemma FeedToLimit(s: string, net: seq<Recv>)
    requires HeaderEnd(s).Some? && HeaderEnd(s).value + 4 > HEADLIMIT && |s| >= HEADLIMIT
    requires NetOk(net)
    ensures Feed("", ToLimit(s) + net) == Feed(s[..HEADLIMIT], net)
    ensures NetOk(ToLimit(s) + net) && Bytes(ToLimit(s) + net) == s[..HEADLIMIT] + Bytes(net)
  {
    hide Decide, Parse, HeaderEnd, Feed;
    var a, b := s[..RECV_SIZE], s[RECV_SIZE..HEADLIMIT];
    assert "" + a == a && a + b == s[..HEADLIMIT];
    var tail := [Data(b)] + net;
    assert ToLimit(s) + net == [Data(a)] + tail;
    FeedData("", a, tail);
    FeedData(a, b, net);
    DecideOnPrefix(s, a);
    DecideOnPrefix(s, s[..HEADLIMIT]);
    assert tail[1..] == net && ([Data(a)] + tail)[1..] == tail;
    assert Bytes(tail) == b + Bytes(net);
    assert a + (b + Bytes(net)) == s[..HEADLIMIT] + Bytes(net);
  }

  ghost predicate Reaches(s: string, net: seq<Recv>, st: IOState) {
    Delivers(s, "", net) && Feed("", net).Verdict? && Feed("", net).state == st && st !in {CLOSED, ERROR}
  }

  /** In the window both verdicts can be had from the same stream. */
  lemma WindowSplits(s: string) returns (net1: seq<Recv>, net2: seq<Recv>, st: IOState)
    requires Complete(s) && HEADLIMIT - 3 < HeaderEnd(s).value <= HEADLIMIT
    ensures Reaches(s, net1, HEAD_TOO_LARGE) && Reaches(s, net2, st) && st != HEAD_TOO_LARGE
  {
    hide Decide, Parse, HeaderEnd, Feed;
    EndFits(s);
    var h := HeaderEnd(s).value;
    var last := [Data(s[HEADLIMIT..h + 3])] + [];
    FeedToLimit(s, last);
    FeedData(s[..HEADLIMIT], s[HEADLIMIT..h + 3], []);
    assert s[..HEADLIMIT] + s[HEADLIMIT..h + 3] == s[..h + 3];
    DecideOnPrefix(s, s[..h + 3]);
    assert Bytes(last) == s[HEADLIMIT..h + 3] + Bytes([]) == s[HEADLIMIT..h + 3];
    net1 := ToLimit(s) + last;
    ChopDelivers(s, HEADLIMIT);
    ChopReaches(s, HEADLIMIT);
    FeedToLimit(s, Chop(s, HEADLIMIT));
    net2 := ToLimit(s) + Chop(s, HEADLIMIT);
    st := Feed("", net2).state;
  }

  /** The three positions HEADLIMIT - 2 .. HEADLIMIT are the only ones where chunking decides. */
  lemma VerdictDependsOnChunksIff(s: string)
    requires Complete(s)
    ensures (exists net1, net2, st1, st2 :: Reaches(s, net1, st1) && Reaches(s, net2, st2) && st1 != st2)
            <==> 8190 <= HeaderEnd(s).value <= 8192
  {
    hide Decide, Parse, HeaderEnd, Feed, Bytes;
    if HEADLIMIT - 3 < HeaderEnd(s).value <= HEADLIMIT {
      var net1, net2, st := WindowSplits(s);
    } else {
      forall net1, net2, st1, st2 | Reaches(s, net1, st1) && Reaches(s, net2, st2) ensures st1 == st2 {
        if HeaderEnd(s).value > HEADLIMIT {
          LongHeadIsRefused(s, "", net1);
          LongHeadIsRefused(s, "", net2);
        } else {
          ChunksDoNotMatter(s, "", net1, "", net2);
        }
      }
    }
  }
}
