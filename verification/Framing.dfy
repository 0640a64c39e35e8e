/** Newline framing between tools/agent_claude.py and its bridge: bytes arrive in arbitrary
    chunks, a frame is a line of at most MAX_FRAME bytes. */
module Framing {
  const MAX_FRAME: nat := 8 * 1024 * 1024

  type Bytes = string
  type Message = m: string | '\n' !in m

  /** The complete lines of some data, and what follows the last newline. */
  datatype Parts = Parts(lines: seq<Bytes>, rest: Bytes)

  /** One more byte in front. */
  function Push(c: char, parts: Parts): Parts {
    if c == '\n' then Parts([[]] + parts.lines, parts.rest)
    else if parts.lines == [] then Parts([], [c] + parts.rest)
    else Parts([[c] + parts.lines[0]] + parts.lines[1..], parts.rest)
  }

  function Cut(data: Bytes): Parts {
    if data == [] then Parts([], []) else Push(data[0], Cut(data[1..]))
  }

  predicate Fits(lines: seq<Bytes>) {
    forall i | 0 <= i < |lines| :: |lines[i]| <= MAX_FRAME
  }

  /** The lines before the first oversized one. */
  function Leading(lines: seq<Bytes>): seq<Bytes> {
    if lines == [] || |lines[0]| > MAX_FRAME then [] else [lines[0]] + Leading(lines[1..])
  }

  /** One delivery: the frames handed on, what is kept, and whether the data was acceptable. */
  datatype Delivery = Delivery(frames: seq<Bytes>, pending: Bytes, ok: bool)

  function Feed(pending: Bytes, data: Bytes): Delivery {
    var parts := Cut(pending + data);
    if |parts.rest| > MAX_FRAME then Delivery([], parts.rest, false)
    else Delivery(Leading(parts.lines), parts.rest, Fits(parts.lines))
  }

  /** Deliveries in order, up to the first refused one. */
  function FeedAll(pending: Bytes, chunks: seq<Bytes>): Delivery
    decreases |chunks|
  {
    if chunks == [] then Delivery([], pending, true)
    else
      var first := Feed(pending, chunks[0]);
      if !first.ok then first
      else
        var others := FeedAll(first.pending, chunks[1..]);
        others.(frames := first.frames + others.frames)
  }

  function Concat(chunks: seq<Bytes>): Bytes {
    if chunks == [] then [] else chunks[0] + Concat(chunks[1..])
  }

  lemma PushLines(c: char, p: Parts, lines: seq<Bytes>, rest: Bytes)
    requires c == '\n' || p.lines != []
    ensures Push(c, Parts(p.lines + lines, rest)) == Parts(Push(c, p).lines + lines, rest)
    ensures Push(c, p).rest == p.rest
  {
    if c != '\n' {
      assert (p.lines + lines)[1..] == p.lines[1..] + lines;
    }
  }

  lemma {:induction false} CutConcat(a: Bytes, b: Bytes)
    ensures var p, q := Cut(a), Cut(Cut(a).rest + b);
            Cut(a + b) == Parts(p.lines + q.lines, q.rest)
  {
    if a == [] {
      assert a + b == b;
    } else {
      assert (a + b)[1..] == a[1..] + b;
      CutConcat(a[1..], b);
      var t := Cut(a[1..]);
      var q := Cut(t.rest + b);
      if a[0] == '\n' || t.lines != [] {
        PushLines(a[0], t, q.lines, q.rest);
      } else {
        assert ([a[0]] + t.rest + b)[1..] == t.rest + b;
        assert [] + q.lines == q.lines;
      }
    }
  }

  lemma {:induction false} CutRest(data: Bytes)
    requires '\n' !in data
    ensures Cut(data) == Parts([], data)
  {
    if data != [] {
      CutRest(data[1..]);
    }
  }

  lemma {:induction false} RestIsPlain(data: Bytes)
    ensures '\n' !in Cut(data).rest
  {
    if data != [] {
      RestIsPlain(data[1..]);
    }
  }

  lemma {:induction false} LeadingAll(lines: seq<Bytes>)
    requires Fits(lines)
    ensures Leading(lines) == lines
  {
    if lines != [] {
      LeadingAll(lines[1..]);
    }
  }

  /** A rest only grows until its newline arrives. */
  lemma {:induction false} RestGrows(rest: Bytes, b: Bytes)
    requires '\n' !in rest
    ensures var p := Cut(rest + b);
            if p.lines == [] then |p.rest| >= |rest| else |p.lines[0]| >= |rest|
  {
    if rest != [] {
      assert (rest + b)[1..] == rest[1..] + b;
      RestGrows(rest[1..], b);
    }
  }

  /** Chunking does not matter: the data is accepted exactly when every line of the whole and
      its unfinished end fit, and then exactly those lines are handed on. */
  lemma {:induction false} ChunkingIsIrrelevant(pending: Bytes, chunks: seq<Bytes>)
    requires '\n' !in pending && |pending| <= MAX_FRAME
    ensures var whole := Cut(pending + Concat(chunks));
            var r := FeedAll(pending, chunks);
            && (r.ok <==> Fits(whole.lines) && |whole.rest| <= MAX_FRAME)
            && (r.ok ==> r.frames == whole.lines && r.pending == whole.rest)
    decreases |chunks|
  {
    if chunks == [] {
      CutRest(pending);
      assert pending + [] == pending;
    } else {
      var data, others := chunks[0], Concat(chunks[1..]);
      var first := Cut(pending + data);
      RestIsPlain(pending + data);
      assert pending + Concat(chunks) == (pending + data) + others;
      CutConcat(pending + data, others);
      var last := Cut(first.rest + others);
      var whole := Cut(pending + Concat(chunks));
      assert whole.lines == first.lines + last.lines && whole.rest == last.rest;
      FitsConcat(first.lines, last.lines);
      if |first.rest| > MAX_FRAME {
        RestGrows(first.rest, others);
        assert last.lines != [] ==> |last.lines[0]| > MAX_FRAME;
      } else if Fits(first.lines) {
        LeadingAll(first.lines);
        ChunkingIsIrrelevant(first.rest, chunks[1..]);
      }
    }
  }

  lemma {:induction false} LeadingConcat(a: seq<Bytes>, b: seq<Bytes>)
    requires Fits(a)
    ensures Leading(a + b) == a + Leading(b)
  {
    if a == [] {
      assert a + b == b;
    } else {
      assert (a + b)[1..] == a[1..] + b;
      LeadingConcat(a[1..], b);
    }
  }

  lemma FitsConcat(a: seq<Bytes>, b: seq<Bytes>)
    ensures Fits(a + b) <==> Fits(a) && Fits(b)
  {
    if Fits(a + b) {
      forall i | 0 <= i < |a| ensures |a[i]| <= MAX_FRAME { assert a[i] == (a + b)[i]; }
      forall i | 0 <= i < |b| ensures |b[i]| <= MAX_FRAME { assert b[i] == (a + b)[|a| + i]; }
    }
  }

  /** What send() appends for each message. */
  function Encode(messages: seq<Message>): Bytes {
    if messages == [] then [] else messages[0] + "\n" + Encode(messages[1..])
  }

  lemma {:induction false} CutMessage(m: Message, rest: Bytes)
    ensures Cut(m + "\n" + rest) == Parts([m] + Cut(rest).lines, Cut(rest).rest)
  {
    var s := m + "\n" + rest;
    if m == [] {
      assert s[1..] == rest;
    } else {
      assert s[1..] == m[1..] + "\n" + rest;
      CutMessage(m[1..], rest);
      assert [m[0]] + m[1..] == m;
    }
  }

  lemma {:induction false} CutEncoded(messages: seq<Message>)
    ensures Cut(Encode(messages)).lines == messages && Cut(Encode(messages)).rest == []
  {
    if messages != [] {
      CutMessage(messages[0], Encode(messages[1..]));
      CutEncoded(messages[1..]);
    }
  }

  /** The transport is a FIFO of messages: however the sent bytes are cut into chunks, the
      receiver is handed exactly the sent messages in order, with nothing left over. */
  lemma TransportIsFifo(messages: seq<Message>, chunks: seq<Bytes>)
    requires Concat(chunks) == Encode(messages) && forall i | 0 <= i < |messages| :: |messages[i]| <= MAX_FRAME
    ensures FeedAll([], chunks) == Delivery(messages, [], true)
  {
    CutEncoded(messages);
    assert [] + Concat(chunks) == Concat(chunks);
    ChunkingIsIrrelevant([], chunks);
  }

  // ---------------------------------------------------------------------------
  // The two receivers
  // ---------------------------------------------------------------------------

  class Receiver {
    var pending: Bytes

    constructor ()
      ensures pending == []
    {
      pending := [];
    }

    /** ClaudeBatchPresentation.feed. */
    method DoFeed(data: Bytes) returns (frames: seq<Bytes>, ok: bool)
      modifies this
      ensures var r := Feed(old(pending), data); frames == r.frames && pending == r.pending && ok == r.ok
    {
      var parts := Cut(pending + data);
      pending := parts.rest;
      if |pending| > MAX_FRAME {
        return [], false;
      }
      frames := [];
      for i := 0 to |parts.lines|
        invariant pending == parts.rest && frames == parts.lines[..i] && Fits(frames)
      {
        if |parts.lines[i]| > MAX_FRAME {
          LeadingConcat(frames, parts.lines[i..]);
          assert parts.lines == frames + parts.lines[i..];
          return frames, false;
        }
        frames := frames + [parts.lines[i]];
      }
      assert frames == parts.lines;
      LeadingAll(frames);
      ok := true;
    }

    /** The bridge's read_input: takes one line after another out of the pending bytes. */
    method ReadInput(data: Bytes) returns (frames: seq<Bytes>, ok: bool)
      modifies this
      ensures var parts := Cut(old(pending) + data);
              && (ok <==> Fits(parts.lines) && |parts.rest| <= MAX_FRAME)
              && frames == Leading(parts.lines)
              && (ok ==> pending == parts.rest)
    {
      pending := pending + data;
      ghost var whole := Cut(pending);
      frames := [];
      var end := FindNewline(pending);
      while end < |pending|
        invariant 0 <= end <= |pending| && '\n' !in pending[..end]
        invariant end < |pending| ==> pending[end] == '\n'
        invariant whole == Parts(frames + Cut(pending).lines, Cut(pending).rest) && Fits(frames)
        decreases |pending|
      {
        ghost var before, here := frames, Cut(pending).lines;
        var line, others := pending[..end], pending[end + 1..];
        assert pending == line + "\n" + others;
        CutMessage(line, others);
        if end > MAX_FRAME {
          assert here[0] == line;
          LeadingConcat(frames, here);
          FitsConcat(frames, here);
          return frames, false;
        }
        frames := frames + [line];
        pending := others;
        assert before + here == frames + Cut(others).lines;
        end := FindNewline(pending);
      }
      assert pending[..end] == pending;
      CutRest(pending);
      assert whole.lines == frames;
      LeadingAll(frames);
      ok := |pending| <= MAX_FRAME;
    }
  }

  method FindNewline(data: Bytes) returns (end: nat)
    ensures end <= |data| && '\n' !in data[..end] && (end < |data| ==> data[end] == '\n')
  {
    end := 0;
    while end < |data| && data[end] != '\n'
      invariant end <= |data| && '\n' !in data[..end]
    {
      end := end + 1;
    }
  }
}
