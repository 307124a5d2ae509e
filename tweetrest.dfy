/**
 * The client side of the upstream service (tweetrest.go): keeping the user
 * stream connected with a backoff on rate-limit answers, framing the stream
 * body into lines, and the three bounded back-fill loops over the REST API.
 *
 * HTTP is not modelled: a stream connection attempt is a `Response` (status
 * and the bytes the body delivers before it ends), and the server's side
 * of one back-fill call is the sequence of its `Reply`s, the i-th answering
 * the i-th request, each already carrying the decoded page. A call sends
 * each request once, so a sequence of answers covers every server
 * behaviour a call can meet.
 */
module TweetRest {
  import opened Wrappers
  import opened Twitter

  // ----- ReadHttpStream: line framing -----

  const Newline: byte := 10

  /** ASCII white space: tab, line feed, vertical tab, form feed, carriage return, space. */
  predicate IsSpace(b: byte)
  {
    b == 32 || 9 <= b <= 13
  }

  /** The first newline at or after `i`, or `|s|` when there is none. */
  function NewlineFrom(s: Bytes, i: nat): (r: nat)
    requires i <= |s|
    ensures i <= r <= |s|
    decreases |s| - i
  {
    if i == |s| || s[i] == Newline then i else NewlineFrom(s, i + 1)
  }

  lemma {:induction false} NewlineFromSpec(s: Bytes, i: nat)
    requires i <= |s|
    ensures NewlineFrom(s, i) < |s| ==> s[NewlineFrom(s, i)] == Newline
    ensures forall k :: i <= k < NewlineFrom(s, i) ==> s[k] != Newline
    decreases |s| - i
  {
    if i < |s| && s[i] != Newline {
      NewlineFromSpec(s, i + 1);
    }
  }

  /** The first position in `[i, j)` that is not white space, or `j`. */
  function SkipSpace(s: Bytes, i: nat, j: nat): (r: nat)
    requires i <= j <= |s|
    ensures i <= r <= j
    decreases j - i
  {
    if i == j || !IsSpace(s[i]) then i else SkipSpace(s, i + 1, j)
  }

  lemma {:induction false} SkipSpaceSpec(s: Bytes, i: nat, j: nat)
    requires i <= j <= |s|
    ensures SkipSpace(s, i, j) < j ==> !IsSpace(s[SkipSpace(s, i, j)])
    ensures forall k :: i <= k < SkipSpace(s, i, j) ==> IsSpace(s[k])
    decreases j - i
  {
    if i < j && IsSpace(s[i]) {
      SkipSpaceSpec(s, i + 1, j);
    }
  }

  /** The end of `[i, j)` once trailing white space is cut off. */
  function CutSpace(s: Bytes, i: nat, j: nat): (r: nat)
    requires i <= j <= |s|
    ensures i <= r <= j
    decreases j - i
  {
    if i == j || !IsSpace(s[j - 1]) then j else CutSpace(s, i, j - 1)
  }

  lemma {:induction false} CutSpaceSpec(s: Bytes, i: nat, j: nat)
    requires i <= j <= |s|
    ensures CutSpace(s, i, j) > i ==> !IsSpace(s[CutSpace(s, i, j) - 1])
    ensures forall k :: CutSpace(s, i, j) <= k < j ==> IsSpace(s[k])
    decreases j - i
  {
    if i < j && IsSpace(s[j - 1]) {
      CutSpaceSpec(s, i, j - 1);
    }
  }

  /** `bytes.TrimSpace` of `s[i..j]` over ASCII white space, as the bounds of what is kept. */
  function TrimBounds(s: Bytes, i: nat, j: nat): (r: (nat, nat))
    requires i <= j <= |s|
    ensures i <= r.0 <= r.1 <= j
  {
    var a := SkipSpace(s, i, j);
    (a, CutSpace(s, a, j))
  }

  /** What the segment `s[i..j]` contributes to the forwarded lines: its trimmed bytes, unless blank. */
  function Forwarded(s: Bytes, i: nat, j: nat): seq<Bytes>
    requires i <= j <= |s|
  {
    var a := SkipSpace(s, i, j);
    var e := CutSpace(s, a, j);
    if a == e then [] else [s[a..e]]
  }

  /**
   * What ReadHttpStream forwards from `body[pos..]`: each newline-terminated
   * segment, trimmed, unless it is blank; a final segment with no newline
   * ends the read and is dropped.
   */
  function FrameFrom(body: Bytes, pos: nat): seq<Bytes>
    requires pos <= |body|
    decreases |body| - pos, 1
  {
    var n := NewlineFrom(body, pos);
    if n == |body| then [] else FrameRest(body, pos, n)
  }

  /** What is forwarded from the segment `body[pos..n]`, ended by the newline at `n`, and all after it. */
  function FrameRest(body: Bytes, pos: nat, n: nat): seq<Bytes>
    requires pos <= n < |body|
    decreases |body| - n, 0
  {
    Forwarded(body, pos, n + 1) + FrameFrom(body, n + 1)
  }

  function Frame(body: Bytes): seq<Bytes>
  {
    FrameFrom(body, 0)
  }

  lemma NewlineAt(s: Bytes, i: nat, j: nat)
    requires i <= j <= |s| && (j < |s| ==> s[j] == Newline)
    requires forall k :: i <= k < j ==> s[k] != Newline
    ensures NewlineFrom(s, i) == j
  {
    NewlineFromSpec(s, i);
    var n := NewlineFrom(s, i);
    if n < j {
      assert false;
    } else if j < n {
      assert false;
    }
  }

  /** One segment of the framing: up to and including the next newline. */
  lemma FrameStep(body: Bytes, pos: nat, n: nat)
    requires pos <= n < |body| && n == NewlineFrom(body, pos)
    ensures FrameFrom(body, pos) == Forwarded(body, pos, n + 1) + FrameFrom(body, n + 1)
  {
  }

  lemma FrameEnd(body: Bytes, pos: nat)
    requires pos <= |body| && NewlineFrom(body, pos) == |body|
    ensures FrameFrom(body, pos) == []
  {
  }

  /** `reader.ReadBytes('\n')` from `pos`: the position of the next newline, or the end of the body. */
  method NextDelimiter(body: Bytes, pos: nat) returns (j: nat)
    requires pos <= |body|
    ensures j == NewlineFrom(body, pos)
  {
    j := pos;
    while j < |body| && body[j] != Newline
      invariant pos <= j <= |body|
      invariant forall k :: pos <= k < j ==> body[k] != Newline
      decreases |body| - j
    {
      j := j + 1;
    }
    NewlineAt(body, pos, j);
  }

  /** Reads the body line by line and forwards the non-blank trimmed lines, in order. */
  method ReadHttpStream(body: Bytes) returns (lines: seq<Bytes>)
    ensures lines == Frame(body)
  {
    lines := [];
    var pos := 0;
    while pos < |body|
      invariant 0 <= pos <= |body|
      invariant lines + FrameFrom(body, pos) == Frame(body)
      decreases |body| - pos
    {
      var j := NextDelimiter(body, pos);
      if j == |body| {
        // io.EOF before the delimiter: the unterminated segment is not forwarded
        FrameEnd(body, pos);
        assert lines + [] == lines;
        return;
      }
      var bounds := TrimBounds(body, pos, j + 1);
      ghost var before := lines;
      if bounds.0 != bounds.1 {
        lines := lines + [body[bounds.0..bounds.1]];
      }
      ReadStep(body, pos, before, lines);
      pos := j + 1;
    }
    assert lines + [] == lines;
  }

  lemma ReadStep(body: Bytes, pos: nat, lines: seq<Bytes>, next: seq<Bytes>)
    requires pos <= |body| && NewlineFrom(body, pos) < |body|
    requires lines + FrameFrom(body, pos) == Frame(body)
    requires var b := TrimBounds(body, pos, NewlineFrom(body, pos) + 1);
      next == if b.0 == b.1 then lines else lines + [body[b.0..b.1]]
    ensures next + FrameFrom(body, NewlineFrom(body, pos) + 1) == Frame(body)
  {
    var n := NewlineFrom(body, pos);
    FrameStep(body, pos, n);
    assert next == lines + Forwarded(body, pos, n + 1);
    ConcatAssoc(lines, Forwarded(body, pos, n + 1), FrameFrom(body, n + 1));
  }

  /** A line as forwarded: non-empty, no newline inside, no white space at either end. */
  predicate IsFramedLine(l: Bytes)
  {
    l != [] && !IsSpace(l[0]) && !IsSpace(l[|l| - 1]) && forall i :: 0 <= i < |l| ==> l[i] != Newline
  }

  lemma ForwardedSegment(s: Bytes, i: nat, n: nat)
    requires i <= n < |s| && s[n] == Newline
    requires forall k :: i <= k < n ==> s[k] != Newline
    ensures var f := Forwarded(s, i, n + 1); f == [] || (|f| == 1 && IsFramedLine(f[0]))
  {
    var (a, e) := TrimBounds(s, i, n + 1);
    SkipSpaceSpec(s, i, n + 1);
    CutSpaceSpec(s, a, n + 1);
    if a != e {
      var l := s[a..e];
      if e == n + 1 {
        assert false;
      }
      assert l[0] == s[a] && l[|l| - 1] == s[e - 1];
      assert forall k :: 0 <= k < |l| ==> l[k] == s[a + k];
    }
  }

  /** Every forwarded line is non-empty, trimmed and holds no newline. */
  lemma {:induction false} FramedLines(body: Bytes, pos: nat)
    requires pos <= |body|
    ensures forall m :: 0 <= m < |FrameFrom(body, pos)| ==> IsFramedLine(FrameFrom(body, pos)[m])
    decreases |body| - pos
  {
    var n := NewlineFrom(body, pos);
    NewlineFromSpec(body, pos);
    if n < |body| {
      ForwardedSegment(body, pos, n);
      FramedLines(body, n + 1);
      FrameStep(body, pos, n);
      AllFramedConcat(Forwarded(body, pos, n + 1), FrameFrom(body, n + 1));
    }
  }

  lemma AllFramedConcat(f: seq<Bytes>, r: seq<Bytes>)
    requires forall m :: 0 <= m < |f| ==> IsFramedLine(f[m])
    requires forall m :: 0 <= m < |r| ==> IsFramedLine(r[m])
    ensures forall m :: 0 <= m < |f + r| ==> IsFramedLine((f + r)[m])
  {
    forall m | 0 <= m < |f + r| ensures IsFramedLine((f + r)[m]) {
      if m >= |f| {
        assert (f + r)[m] == r[m - |f|];
      }
    }
  }

  /** Trimming only reads the segment: it is the same inside any longer body. */
  lemma ForwardedPrefix(s: Bytes, t: Bytes, i: nat, j: nat)
    requires i <= j <= |s| <= |t| && forall k :: 0 <= k < |s| ==> s[k] == t[k]
    ensures Forwarded(t, i, j) == Forwarded(s, i, j)
  {
    SkipSpaceSame(s, t, i, j);
    var a := SkipSpace(s, i, j);
    CutSpaceSame(s, t, a, j);
    assert s[a..CutSpace(s, a, j)] == t[a..CutSpace(s, a, j)];
  }

  lemma {:induction false} SkipSpaceSame(s: Bytes, t: Bytes, i: nat, j: nat)
    requires i <= j <= |s| <= |t| && forall k :: 0 <= k < |s| ==> s[k] == t[k]
    ensures SkipSpace(t, i, j) == SkipSpace(s, i, j)
    decreases j - i
  {
    if i < j {
      assert s[i] == t[i];
      SkipSpaceSame(s, t, i + 1, j);
    }
  }

  lemma {:induction false} CutSpaceSame(s: Bytes, t: Bytes, i: nat, j: nat)
    requires i <= j <= |s| <= |t| && forall k :: 0 <= k < |s| ==> s[k] == t[k]
    ensures CutSpace(t, i, j) == CutSpace(s, i, j)
    decreases j - i
  {
    if i < j {
      assert s[j - 1] == t[j - 1];
      CutSpaceSame(s, t, i, j - 1);
    }
  }

  /** Bytes after the last newline never reach the line channel. */
  lemma UnterminatedTailDropped(body: Bytes, tail: Bytes, pos: nat)
    requires pos <= |body| && (pos == |body| || body[|body| - 1] == Newline)
    requires forall k :: 0 <= k < |tail| ==> tail[k] != Newline
    ensures FrameFrom(body + tail, pos) == FrameFrom(body, pos)
  {
    var t := body + tail;
    forall k | |body| <= k < |t| ensures t[k] != Newline {
      assert t[k] == tail[k - |body|];
    }
    TailDropped(body, t, pos);
  }

  /** `t` is `body` followed by bytes none of which is a newline. */
  ghost predicate ExtendsWithoutNewline(body: Bytes, t: Bytes)
  {
    |body| <= |t| && (forall k :: 0 <= k < |body| ==> t[k] == body[k]) &&
    (forall k :: |body| <= k < |t| ==> t[k] != Newline)
  }

  lemma {:induction false} TailDropped(body: Bytes, t: Bytes, pos: nat)
    requires pos <= |body| && (pos == |body| || body[|body| - 1] == Newline)
    requires ExtendsWithoutNewline(body, t)
    ensures FrameFrom(t, pos) == FrameFrom(body, pos)
    decreases |body| - pos
  {
    if pos == |body| {
      TailAloneDropped(body, t);
    } else {
      var n := NewlineBefore(body, pos);
      TailDropped(body, t, n + 1);
      TailStep(body, t, pos, n);
    }
  }

  /** A body that ends in a newline has one after any position inside it. */
  lemma NewlineBefore(body: Bytes, pos: nat) returns (n: nat)
    requires pos < |body| && body[|body| - 1] == Newline
    ensures n == NewlineFrom(body, pos) && n < |body|
  {
    n := NewlineFrom(body, pos);
    NewlineFromSpec(body, pos);
  }

  /** Two sequences that share a head and have equal rests are equal. */
  lemma SameHead<T>(x: seq<T>, y: seq<T>, f1: seq<T>, f2: seq<T>, r1: seq<T>, r2: seq<T>)
    requires x == f1 + r1 && y == f2 + r2 && f1 == f2 && r1 == r2
    ensures x == y
  {
  }

  lemma TailAloneDropped(body: Bytes, t: Bytes)
    requires ExtendsWithoutNewline(body, t)
    ensures FrameFrom(t, |body|) == FrameFrom(body, |body|) == []
  {
    NewlineAt(t, |body|, |t|);
    NewlineAt(body, |body|, |body|);
    FrameEnd(t, |body|);
    FrameEnd(body, |body|);
  }

  /** The next segment of a body that ends in a newline comes out the same from the longer bytes. */
  lemma TailStep(body: Bytes, t: Bytes, pos: nat, n: nat)
    requires pos <= n < |body| && n == NewlineFrom(body, pos) && ExtendsWithoutNewline(body, t)
    requires FrameFrom(t, n + 1) == FrameFrom(body, n + 1)
    ensures FrameFrom(t, pos) == FrameFrom(body, pos)
  {
    TailSegment(body, t, pos, n);
    FrameStep(t, pos, n);
    FrameStep(body, pos, n);
    SameHead(FrameFrom(t, pos), FrameFrom(body, pos), Forwarded(t, pos, n + 1), Forwarded(body, pos, n + 1),
             FrameFrom(t, n + 1), FrameFrom(body, n + 1));
  }

  /** The segment up to the next newline is found and trimmed alike in both. */
  lemma TailSegment(body: Bytes, t: Bytes, pos: nat, n: nat)
    requires pos <= n < |body| && n == NewlineFrom(body, pos) && ExtendsWithoutNewline(body, t)
    ensures NewlineFrom(t, pos) == n
    ensures Forwarded(t, pos, n + 1) == Forwarded(body, pos, n + 1)
  {
    NewlineFromSpec(body, pos);
    assert t[n] == body[n];
    NewlineAt(t, pos, n);
    ForwardedPrefix(body, t, pos, n + 1);
  }

  /** The bytes of lines each followed by a newline. */
  function Join(ls: seq<Bytes>): Bytes
    decreases |ls|
  {
    if ls == [] then [] else ls[0] + [Newline] + Join(ls[1..])
  }

  lemma ForwardedFramed(s: Bytes, i: nat, l: Bytes)
    requires IsFramedLine(l) && i + |l| < |s| && s[i..i + |l|] == l && s[i + |l|] == Newline
    ensures Forwarded(s, i, i + |l| + 1) == [l]
  {
    var j := i + |l|;
    assert s[i] == l[0] && s[j - 1] == l[|l| - 1];
    assert SkipSpace(s, i, j + 1) == i;
    assert CutSpace(s, i, j + 1) == CutSpace(s, i, j);
    assert CutSpace(s, i, j) == j;
  }

  /** Framing undoes joining: lines that could have been forwarded come back unchanged. */
  lemma {:induction false} FrameJoin(p: Bytes, ls: seq<Bytes>)
    requires forall i :: 0 <= i < |ls| ==> IsFramedLine(ls[i])
    ensures FrameFrom(p + Join(ls), |p|) == ls
    decreases |ls|
  {
    if ls == [] {
      FrameJoinNil(p);
    } else {
      var p2 := JoinShape(p, ls);
      var s := p + Join(ls);
      JoinStep(s, |p|, ls[0], |p2|);
      FrameJoin(p2, ls[1..]);
      assert [ls[0]] + ls[1..] == ls;
    }
  }

  lemma FrameJoinNil(p: Bytes)
    ensures FrameFrom(p + Join([]), |p|) == []
  {
    assert p + Join([]) == p;
    NewlineAt(p, |p|, |p|);
    FrameEnd(p, |p|);
  }

  /** Joined lines seen from the start of the first one. */
  lemma JoinShape(p: Bytes, ls: seq<Bytes>) returns (p2: Bytes)
    requires ls != []
    ensures p2 == p + ls[0] + [Newline] && |p2| == |p| + |ls[0]| + 1
    ensures p + Join(ls) == p2 + Join(ls[1..])
    ensures |p| + |ls[0]| < |p + Join(ls)|
    ensures (p + Join(ls))[|p|..|p| + |ls[0]|] == ls[0] && (p + Join(ls))[|p| + |ls[0]|] == Newline
  {
    p2 := p + ls[0] + [Newline];
    assert p + Join(ls) == p2 + Join(ls[1..]);
  }

  /** A framed line followed by a newline is forwarded as it is. */
  lemma JoinStep(s: Bytes, i: nat, l: Bytes, next: nat)
    requires IsFramedLine(l) && i + |l| < |s| && s[i..i + |l|] == l && s[i + |l|] == Newline
    requires next == i + |l| + 1
    ensures FrameFrom(s, i) == [l] + FrameFrom(s, next)
  {
    forall k | i <= k < i + |l| ensures s[k] != Newline {
      assert s[k] == l[k - i];
    }
    NewlineAt(s, i, i + |l|);
    FrameStep(s, i, i + |l|);
    ForwardedFramed(s, i, l);
  }

  // ----- MaintainUserStream: reconnecting with backoff -----

  /** One connection attempt to the user stream: its status and the body it delivers until it ends. */
  datatype Response = Response(status: int, body: Bytes)

  /** What the stream loop does, in order: forward a line, sleep some seconds, or close the channel. */
  datatype StreamEvent = Line(line: Bytes) | Sleep(seconds: nat) | Closed

  predicate Retryable(status: int)
  {
    status == 420 || status == 503
  }

  predicate Fatal(status: int)
  {
    status != 200 && !Retryable(status)
  }

  /** The backoff after one more rate-limit answer: 5 seconds first, then doubling, without a cap. */
  function NextBackoff(b: nat): (r: nat)
    ensures r > 0
  {
    if b == 0 then 5 else b * 2
  }

  function Lines(ls: seq<Bytes>): (r: seq<StreamEvent>)
    ensures |r| == |ls| && forall i :: 0 <= i < |r| ==> r[i] == Line(ls[i])
  {
    seq(|ls|, i requires 0 <= i < |ls| => Line(ls[i]))
  }

  /**
   * The events of the stream loop over the attempts, starting from backoff
   * `b`, and the backoff it ends with. Running out of attempts stands for a
   * stream that is still being kept up.
   */
  function Maintain(b: nat, atts: seq<Response>): (seq<StreamEvent>, nat)
    decreases |atts|
  {
    if atts == [] then ([], b)
    else
      var a := atts[0];
      if a.status == 200 then
        var rest := Maintain(0, atts[1..]);
        (Lines(Frame(a.body)) + rest.0, rest.1)
      else if Retryable(a.status) then
        var rest := Maintain(NextBackoff(b), atts[1..]);
        ([Sleep(NextBackoff(b))] + rest.0, rest.1)
      else ([Closed], b)
  }

  function Pow2(k: nat): (r: nat)
    ensures r > 0
  {
    if k == 0 then 1 else 2 * Pow2(k - 1)
  }

  /** The backoff after `k + 1` consecutive rate-limit answers starting from `b`. */
  function Backoff(b: nat, k: nat): nat
  {
    if b == 0 then 5 * Pow2(k) else b * Pow2(k + 1)
  }

  /** Consecutive rate-limit answers sleep 5, 10, 20, 40, ... seconds from a reset backoff. */
  lemma {:induction false} BackoffDoubles(b: nat, atts: seq<Response>)
    requires forall i :: 0 <= i < |atts| ==> Retryable(atts[i].status)
    ensures |Maintain(b, atts).0| == |atts|
    ensures forall j :: 0 <= j < |atts| ==> Maintain(b, atts).0[j] == Sleep(Backoff(b, j))
    ensures Maintain(b, atts).1 == if atts == [] then b else Backoff(b, |atts| - 1)
    decreases |atts|
  {
    if atts != [] {
      var nb := NextBackoff(b);
      BackoffDoubles(nb, atts[1..]);
      var ev := Maintain(b, atts).0;
      forall j | 0 <= j < |atts| ensures ev[j] == Sleep(Backoff(b, j)) {
        if j > 0 {
          assert ev[j] == Maintain(nb, atts[1..]).0[j - 1];
          BackoffShift(b, j - 1);
        }
      }
      if |atts| > 1 {
        BackoffShift(b, |atts| - 2);
      }
    }
  }

  lemma BackoffShift(b: nat, k: nat)
    ensures Backoff(NextBackoff(b), k) == Backoff(b, k + 1)
  {
    if b != 0 {
      calc {
        Backoff(NextBackoff(b), k);
        b * 2 * Pow2(k + 1);
        b * (2 * Pow2(k + 1));
        b * Pow2(k + 2);
      }
    }
  }

  /** Whatever the backoff was, a successful connection resets it: the next rate-limit answer sleeps 5 seconds. */
  lemma ResetOnSuccess(b: nat, body: Bytes, r: Response, rest: seq<Response>)
    requires Retryable(r.status)
    ensures |Maintain(b, [Response(200, body), r] + rest).0| > |Frame(body)|
    ensures Maintain(b, [Response(200, body), r] + rest).0[|Frame(body)|] == Sleep(5)
    ensures Maintain(b, [Response(200, body)]).1 == 0
  {
    var atts := [Response(200, body), r] + rest;
    assert atts[1..] == [r] + rest;
    assert ([r] + rest)[1..] == rest;
    assert [Response(200, body)][1..] == [];
  }

  /** The channel is closed exactly when some attempt gets a status other than 200, 420 or 503. */
  lemma {:induction false} ClosedIffFatal(b: nat, atts: seq<Response>)
    ensures Closed in Maintain(b, atts).0 <==> exists i :: 0 <= i < |atts| && Fatal(atts[i].status)
    ensures Closed in Maintain(b, atts).0 ==> Maintain(b, atts).0[|Maintain(b, atts).0| - 1] == Closed
    ensures forall j :: 0 <= j < |Maintain(b, atts).0| - 1 ==> Maintain(b, atts).0[j] != Closed
    decreases |atts|
  {
    if atts != [] && !Fatal(atts[0].status) {
      var nb, head := MaintainTurn(b, atts);
      ClosedIffFatal(nb, atts[1..]);
      FatalInRest(atts);
      ClosedInConcat(head, Maintain(nb, atts[1..]).0);
    }
  }

  /** A turn that does not close the channel: the events it adds, none of them `Closed`, and the backoff after it. */
  lemma MaintainTurn(b: nat, atts: seq<Response>) returns (nb: nat, head: seq<StreamEvent>)
    requires atts != [] && !Fatal(atts[0].status)
    ensures Maintain(b, atts).0 == head + Maintain(nb, atts[1..]).0
    ensures Closed !in head
  {
    var a := atts[0];
    nb := if a.status == 200 then 0 else NextBackoff(b);
    head := if a.status == 200 then Lines(Frame(a.body)) else [Sleep(nb)];
  }

  lemma FatalInRest(atts: seq<Response>)
    requires atts != [] && !Fatal(atts[0].status)
    ensures (exists i :: 0 <= i < |atts| && Fatal(atts[i].status)) <==>
            (exists i :: 0 <= i < |atts[1..]| && Fatal(atts[1..][i].status))
  {
    if exists i :: 0 <= i < |atts| && Fatal(atts[i].status) {
      var i :| 0 <= i < |atts| && Fatal(atts[i].status);
      assert atts[1..][i - 1] == atts[i];
    }
    if exists i :: 0 <= i < |atts[1..]| && Fatal(atts[1..][i].status) {
      var i :| 0 <= i < |atts[1..]| && Fatal(atts[1..][i].status);
      assert atts[i + 1] == atts[1..][i];
    }
  }

  /** Events with no `Closed` in front change neither whether nor where `Closed` comes last. */
  lemma ClosedInConcat(head: seq<StreamEvent>, tail: seq<StreamEvent>)
    requires Closed !in head
    requires Closed in tail ==> tail[|tail| - 1] == Closed
    requires forall j :: 0 <= j < |tail| - 1 ==> tail[j] != Closed
    ensures Closed in head + tail <==> Closed in tail
    ensures Closed in head + tail ==> (head + tail)[|head + tail| - 1] == Closed
    ensures forall j :: 0 <= j < |head + tail| - 1 ==> (head + tail)[j] != Closed
  {
    forall j | 0 <= j < |head + tail| - 1 ensures (head + tail)[j] != Closed {
      if j >= |head| {
        assert (head + tail)[j] == tail[j - |head|];
      }
    }
  }

  /** Once an attempt is answered with a fatal status no further attempt is made. */
  lemma {:induction false} NothingAfterClose(b: nat, atts: seq<Response>, more: seq<Response>)
    requires atts != [] && Fatal(atts[|atts| - 1].status)
    ensures Maintain(b, atts + more) == Maintain(b, atts)
    decreases |atts|
  {
    if |atts| > 1 {
      var a := atts[0];
      var nb := if a.status == 200 then 0 else NextBackoff(b);
      assert (atts + more)[1..] == atts[1..] + more;
      NothingAfterClose(nb, atts[1..], more);
    }
  }

  // ----- the Fill loops: bounded REST pagination -----

  /** A query parameter value; `Number(n)` is `strconv.FormatInt(n, 10)`. */
  datatype ParamValue = Text(text: string) | Number(n: int)

  type Values = map<string, ParamValue>

  /**
   * The outcome of one REST request: a transport error, or a response
   * whose body decodes (`decodeOk`) to `statuses` (search results or a
   * timeline page) and, for a search, `next_results`.
   */
  datatype Reply =
    | TransportError
    | Reply(status: int, statuses: seq<Tweet>, nextResults: string, decodeOk: bool)

  /** A call's collected tweets, the queries it sent in order, and whether it ended the process. */
  datatype Run = Run(results: seq<Tweet>, requests: seq<Values>, exited: bool)

  const MaxPages: nat := 5

  /** The answer to request `i`; a request beyond the given answers fails in transport. */
  function Answer(replies: seq<Reply>, i: nat): Reply
  {
    if i < |replies| then replies[i] else TransportError
  }

  function Page(r: Reply): seq<Tweet>
  {
    if r.TransportError? then [] else r.statuses
  }

  /**
   * Timeline pagination from request `i` (of at most five) with query `v`:
   * each page is appended whatever its status; after a non-empty page the
   * next query asks for `max_id` one below the page's last id; an empty page
   * ends the call. With `strict` (the home timeline) a body that does not
   * decode ends the process.
   */
  function Timeline(replies: seq<Reply>, v: Values, i: nat, strict: bool): Run
    decreases MaxPages - i
  {
    if i >= MaxPages then Run([], [], false)
    else
      var reply := Answer(replies, i);
      if reply.TransportError? || (strict && !reply.decodeOk) then Run([], [v], true)
      else if reply.statuses == [] then Run([], [v], false)
      else
        var next := Timeline(replies, Below(v, reply.statuses), i + 1, strict);
        Run(reply.statuses + next.results, [v] + next.requests, next.exited)
  }

  /** The query for the page below a non-empty page: `max_id` is one less than the page's last id. */
  function Below(v: Values, page: seq<Tweet>): Values
    requires page != []
  {
    v["max_id" := Number(page[|page| - 1].id - 1)]
  }

  /** The query below a page differs from the query only in `max_id`, and asks for one below the page's last id. */
  lemma BelowKeepsQuery(v: Values, page: seq<Tweet>)
    requires page != []
    ensures SameExceptMaxId(Below(v, page), v)
    ensures "max_id" in Below(v, page) && Below(v, page)["max_id"] == Number(page[|page| - 1].id - 1)
  {
  }

  /**
   * Search pagination from request `i` with query `q`: each page is appended;
   * the next query is `next_results` without its leading '?', parsed by
   * `parseQuery`; an empty or unparsable `next_results` ends the call.
   */
  function Search(replies: seq<Reply>, parseQuery: string -> Option<Values>, q: Values, i: nat): Run
    decreases MaxPages - i
  {
    if i >= MaxPages then Run([], [], false)
    else
      var reply := Answer(replies, i);
      if reply.TransportError? then Run([], [q], true)
      else if reply.nextResults == "" then Run(reply.statuses, [q], false)
      else
        match parseQuery(reply.nextResults[1..])
        case None => Run(reply.statuses, [q], false)
        case Some(nv) =>
          var next := Search(replies, parseQuery, nv, i + 1);
          Run(reply.statuses + next.results, [q] + next.requests, next.exited)
  }

  /** After a non-empty page, the loop's accumulated run plus the rest of the pagination is unchanged. */
  lemma TimelineNext(replies: seq<Reply>, v: Values, i: nat, strict: bool, page: seq<Tweet>, nextV: Values,
                     results: seq<Tweet>, requests: seq<Values>, goal: Run)
    requires i < MaxPages && Answer(replies, i).Reply? && (strict ==> Answer(replies, i).decodeOk)
    requires page == Answer(replies, i).statuses && page != []
    requires nextV == Below(v, page)
    requires results + Timeline(replies, v, i, strict).results == goal.results
    requires requests + Timeline(replies, v, i, strict).requests == goal.requests
    requires Timeline(replies, v, i, strict).exited == goal.exited
    ensures (results + page) + Timeline(replies, nextV, i + 1, strict).results == goal.results
    ensures (requests + [v]) + Timeline(replies, nextV, i + 1, strict).requests == goal.requests
    ensures Timeline(replies, nextV, i + 1, strict).exited == goal.exited
  {
    TimelineUnfold(replies, v, i, strict);
    var next := Timeline(replies, nextV, i + 1, strict);
    ConcatAssoc(results, page, next.results);
    ConcatAssoc(requests, [v], next.requests);
  }

  /** A timeline request that returns a page goes on from just below its oldest tweet. */
  lemma TimelineUnfold(replies: seq<Reply>, v: Values, i: nat, strict: bool)
    requires i < MaxPages && TimelineGoesOn(Answer(replies, i), strict)
    ensures var next := Timeline(replies, Below(v, Answer(replies, i).statuses), i + 1, strict);
      Timeline(replies, v, i, strict).results == Answer(replies, i).statuses + next.results &&
      Timeline(replies, v, i, strict).requests == [v] + next.requests &&
      Timeline(replies, v, i, strict).exited == next.exited
  {
  }

  /** A search request whose reply links onward goes on with the parsed `next_results`. */
  lemma SearchUnfold(replies: seq<Reply>, parseQuery: string -> Option<Values>, q: Values, i: nat)
    requires i < MaxPages && SearchGoesOn(Answer(replies, i), parseQuery)
    ensures var next := Search(replies, parseQuery, parseQuery(Answer(replies, i).nextResults[1..]).value, i + 1);
      Search(replies, parseQuery, q, i).results == Answer(replies, i).statuses + next.results &&
      Search(replies, parseQuery, q, i).requests == [q] + next.requests &&
      Search(replies, parseQuery, q, i).exited == next.exited
  {
  }

  /** After a linked reply, the loop's accumulated run plus the rest of the search is unchanged. */
  lemma SearchNext(replies: seq<Reply>, parseQuery: string -> Option<Values>, q: Values, i: nat,
                   results: seq<Tweet>, requests: seq<Values>, goal: Run)
    requires i < MaxPages && SearchGoesOn(Answer(replies, i), parseQuery)
    requires results + Search(replies, parseQuery, q, i).results == goal.results
    requires requests + Search(replies, parseQuery, q, i).requests == goal.requests
    requires Search(replies, parseQuery, q, i).exited == goal.exited
    ensures var nq := parseQuery(Answer(replies, i).nextResults[1..]).value;
      (results + Answer(replies, i).statuses) + Search(replies, parseQuery, nq, i + 1).results == goal.results &&
      (requests + [q]) + Search(replies, parseQuery, nq, i + 1).requests == goal.requests &&
      Search(replies, parseQuery, nq, i + 1).exited == goal.exited
  {
    SearchUnfold(replies, parseQuery, q, i);
    var next := Search(replies, parseQuery, parseQuery(Answer(replies, i).nextResults[1..]).value, i + 1);
    ConcatAssoc(results, Answer(replies, i).statuses, next.results);
    ConcatAssoc(requests, [q], next.requests);
  }

  function SearchQuery(search: string, sinceId: int): (r: Values)
    ensures ("since_id" in r <==> sinceId != 0) && (sinceId != 0 ==> r["since_id"] == Number(sinceId))
  {
    var v := map["count" := Text("100"), "result_type" := Text("recent"), "q" := Text(search)];
    if sinceId != 0 then v["since_id" := Number(sinceId)] else v
  }

  function UserTimelineQuery(screenName: string, sinceId: int): (r: Values)
    ensures ("since_id" in r <==> sinceId != 0) && (sinceId != 0 ==> r["since_id"] == Number(sinceId))
  {
    var v := map["count" := Text("200"), "screen_name" := Text(screenName), "include_rts" := Text("1")];
    if sinceId != 0 then v["since_id" := Number(sinceId)] else v
  }

  function HomeTimelineQuery(sinceId: int): (r: Values)
    ensures ("since_id" in r <==> sinceId != 0) && (sinceId != 0 ==> r["since_id"] == Number(sinceId))
  {
    var v := map["count" := Text("200"), "include_entities" := Text("1")];
    if sinceId != 0 then v["since_id" := Number(sinceId)] else v
  }

  /** A reply after which the timeline loop asks for another page. */
  predicate TimelineGoesOn(reply: Reply, strict: bool)
  {
    reply.Reply? && (strict ==> reply.decodeOk) && reply.statuses != []
  }

  /** A reply after which the search loop asks for another page. */
  predicate SearchGoesOn(reply: Reply, parseQuery: string -> Option<Values>)
  {
    reply.Reply? && reply.nextResults != "" && parseQuery(reply.nextResults[1..]).Some?
  }

  /** Two queries that differ at most in `max_id`. */
  ghost predicate SameExceptMaxId(a: Values, b: Values)
  {
    forall key :: key != "max_id" ==> (key in a <==> key in b) && (key in a ==> a[key] == b[key])
  }

  /** The pages the server answers to `requests`, sent as requests `i`, `i + 1`, ..., one after the other. */
  function Collected(replies: seq<Reply>, requests: seq<Values>, i: nat): seq<Tweet>
    decreases |requests|
  {
    if requests == [] then [] else Page(Answer(replies, i)) + Collected(replies, requests[1..], i + 1)
  }

  /** The requests whose pages a run kept: all of them, or all but the last when the run exited. */
  function Answered(r: Run): seq<Values>
  {
    if r.exited && r.requests != [] then r.requests[..|r.requests| - 1] else r.requests
  }

  /** The pages kept by a run that sends `v` first and then what `n` sends. */
  lemma AnsweredCons(r: Run, n: Run, v: Values)
    requires r.requests == [v] + n.requests && r.exited == n.exited
    requires n.exited ==> n.requests != []
    ensures Answered(r) == [v] + Answered(n)
  {
    if n.exited {
      assert r.requests[..|r.requests| - 1] == [v] + n.requests[..|n.requests| - 1];
    }
  }

  lemma CollectedCons(replies: seq<Reply>, v: Values, rest: seq<Values>, i: nat)
    ensures Collected(replies, [v] + rest, i) == Page(Answer(replies, i)) + Collected(replies, rest, i + 1)
  {
    assert ([v] + rest)[1..] == rest;
  }

  /** A run that first collects the page of `v` and then does what `n` does keeps the pages of its requests. */
  lemma ResultsCons(replies: seq<Reply>, v: Values, i: nat, r: Run, n: Run)
    requires r.results == Page(Answer(replies, i)) + n.results && r.requests == [v] + n.requests && r.exited == n.exited
    requires n.exited ==> n.requests != []
    requires n.results == Collected(replies, Answered(n), i + 1)
    ensures r.results == Collected(replies, Answered(r), i)
  {
    AnsweredCons(r, n, v);
    CollectedCons(replies, v, Answered(n), i);
  }

  /** A timeline call sends between one and five requests, the first with the initial query, and exits only after one. */
  lemma {:induction false} TimelineCount(replies: seq<Reply>, v: Values, i: nat, strict: bool)
    ensures var rs := Timeline(replies, v, i, strict).requests; i < MaxPages ==> 0 < |rs| <= MaxPages - i && rs[0] == v
    ensures i >= MaxPages ==> Timeline(replies, v, i, strict) == Run([], [], false)
    decreases MaxPages - i
  {
    if i < MaxPages && TimelineGoesOn(Answer(replies, i), strict) {
      TimelineCount(replies, Below(v, Answer(replies, i).statuses), i + 1, strict);
    }
  }

  /** Every timeline request agrees with the initial query except in `max_id`. */
  lemma {:induction false} TimelineKeepsQuery(replies: seq<Reply>, v: Values, i: nat, strict: bool)
    ensures forall k :: 0 <= k < |Timeline(replies, v, i, strict).requests| ==>
      SameExceptMaxId(Timeline(replies, v, i, strict).requests[k], v)
    decreases MaxPages - i
  {
    if i < MaxPages && TimelineGoesOn(Answer(replies, i), strict) {
      var nv := Below(v, Answer(replies, i).statuses);
      TimelineKeepsQuery(replies, nv, i + 1, strict);
      BelowKeepsQuery(v, Answer(replies, i).statuses);
      var rs := Timeline(replies, v, i, strict).requests;
      var ns := Timeline(replies, nv, i + 1, strict).requests;
      assert rs == [v] + ns;
      forall k | 0 <= k < |rs| ensures SameExceptMaxId(rs[k], v) {
        if k > 0 {
          assert rs[k] == ns[k - 1];
          assert SameExceptMaxId(ns[k - 1], nv);
        }
      }
    }
  }

  /**
   * Each timeline request after the first follows a page after which the
   * loop goes on, and asks for `max_id` one below that page's last id.
   */
  lemma {:induction false} TimelineChain(replies: seq<Reply>, v: Values, i: nat, strict: bool)
    ensures TimelineLinked(replies, Timeline(replies, v, i, strict).requests, i, strict)
    decreases MaxPages - i
  {
    if i < MaxPages && TimelineGoesOn(Answer(replies, i), strict) {
      TimelineChain(replies, Below(v, Answer(replies, i).statuses), i + 1, strict);
      TimelineChainGo(replies, v, i, strict);
    }
  }

  lemma TimelineChainGo(replies: seq<Reply>, v: Values, i: nat, strict: bool)
    requires i < MaxPages && TimelineGoesOn(Answer(replies, i), strict)
    requires TimelineLinked(replies, Timeline(replies, Below(v, Answer(replies, i).statuses), i + 1, strict).requests, i + 1, strict)
    ensures TimelineLinked(replies, Timeline(replies, v, i, strict).requests, i, strict)
  {
    var nv := Below(v, Answer(replies, i).statuses);
    TimelineCount(replies, nv, i + 1, strict);
    TimelineUnfold(replies, v, i, strict);
    TimelineLinkedCons(replies, v, Timeline(replies, nv, i + 1, strict).requests, i, strict);
  }

  /** Each request after the first follows a page after which the timeline loop goes on, and asks below it. */
  ghost predicate TimelineLinked(replies: seq<Reply>, rs: seq<Values>, i: nat, strict: bool)
  {
    forall k :: 0 <= k < |rs| - 1 ==> TimelineLink(replies, rs, i, k, strict)
  }

  /** Request `k + 1` of `rs` follows a page after which the loop goes on, and asks below it. */
  ghost predicate TimelineLink(replies: seq<Reply>, rs: seq<Values>, i: nat, k: nat, strict: bool)
  {
    k + 1 < |rs| &&
    TimelineGoesOn(Answer(replies, i + k), strict) && rs[k + 1] == Below(rs[k], Answer(replies, i + k).statuses)
  }

  lemma TimelineLinkedCons(replies: seq<Reply>, v: Values, ns: seq<Values>, i: nat, strict: bool)
    requires TimelineLinked(replies, ns, i + 1, strict)
    requires ns != [] ==> TimelineGoesOn(Answer(replies, i), strict) && ns[0] == Below(v, Answer(replies, i).statuses)
    ensures TimelineLinked(replies, [v] + ns, i, strict)
  {
    var rs := [v] + ns;
    forall k | 0 <= k < |rs| - 1 ensures TimelineLink(replies, rs, i, k, strict) {
      if k > 0 {
        assert TimelineLink(replies, ns, i + 1, k - 1, strict);
        assert rs[k] == ns[k - 1] && rs[k + 1] == ns[k];
        assert i + k == (i + 1) + (k - 1);
      }
    }
  }

  /** The reply to the last request of a run whose first request was number `i`. */
  function LastReply(replies: seq<Reply>, r: Run, i: nat): Reply
    requires r.requests != []
  {
    Answer(replies, i + |r.requests| - 1)
  }

  /** A run that sends `v` first and then what `n` sends ends with the same reply as `n`. */
  lemma LastReplyShift(replies: seq<Reply>, r: Run, n: Run, v: Values, i: nat)
    requires r.requests == [v] + n.requests && n.requests != []
    ensures LastReply(replies, r, i) == LastReply(replies, n, i + 1)
  {
    assert r.requests[|r.requests| - 1] == n.requests[|n.requests| - 1];
    assert i + |r.requests| - 1 == (i + 1) + |n.requests| - 1;
  }

  /**
   * How a timeline run that started at request `i` ended: it exited exactly
   * when its last request failed in transport or, with `strict`, did not
   * decode; short of five requests its last page is one after which the
   * loop does not go on.
   */
  ghost predicate TimelineEnded(replies: seq<Reply>, r: Run, i: nat, strict: bool)
  {
    r.requests != [] ==>
      (r.exited <==> LastReply(replies, r, i).TransportError? || (strict && !LastReply(replies, r, i).decodeOk)) &&
      (i + |r.requests| < MaxPages ==> !TimelineGoesOn(LastReply(replies, r, i), strict))
  }

  lemma {:induction false} TimelineEnds(replies: seq<Reply>, v: Values, i: nat, strict: bool)
    ensures TimelineEnded(replies, Timeline(replies, v, i, strict), i, strict)
    decreases MaxPages - i
  {
    if i < MaxPages {
      if !TimelineGoesOn(Answer(replies, i), strict) {
        TimelineEndsStop(replies, v, i, strict);
      } else {
        var nv := Below(v, Answer(replies, i).statuses);
        TimelineEnds(replies, nv, i + 1, strict);
        TimelineCount(replies, nv, i + 1, strict);
        TimelineUnfold(replies, v, i, strict);
        TimelineEndedCons(replies, v, i, strict, Timeline(replies, v, i, strict), Timeline(replies, nv, i + 1, strict));
      }
    }
  }

  lemma TimelineEndsStop(replies: seq<Reply>, v: Values, i: nat, strict: bool)
    requires i < MaxPages && !TimelineGoesOn(Answer(replies, i), strict)
    ensures TimelineEnded(replies, Timeline(replies, v, i, strict), i, strict)
  {
    var r := Timeline(replies, v, i, strict);
    assert r.requests == [v] && r.exited == (Answer(replies, i).TransportError? || (strict && !Answer(replies, i).decodeOk));
    assert LastReply(replies, r, i) == Answer(replies, i);
  }

  lemma TimelineEndedCons(replies: seq<Reply>, v: Values, i: nat, strict: bool, r: Run, n: Run)
    requires r.requests == [v] + n.requests && r.exited == n.exited && TimelineGoesOn(Answer(replies, i), strict)
    requires TimelineEnded(replies, n, i + 1, strict)
    requires n.requests == [] ==> !n.exited && i + 1 >= MaxPages
    ensures TimelineEnded(replies, r, i, strict)
  {
    if n.requests != [] {
      LastReplyShift(replies, r, n, v, i);
    }
  }

  /**
   * What a timeline call collects: the pages of its requests in order,
   * appended whatever the status; when it exits, nothing of the last reply.
   */
  lemma {:induction false} TimelineResults(replies: seq<Reply>, v: Values, i: nat, strict: bool)
    ensures Timeline(replies, v, i, strict).results == Collected(replies, Answered(Timeline(replies, v, i, strict)), i)
    decreases MaxPages - i
  {
    if i < MaxPages {
      if !TimelineGoesOn(Answer(replies, i), strict) {
        TimelineResultsStop(replies, v, i, strict);
      } else {
        TimelineResults(replies, Below(v, Answer(replies, i).statuses), i + 1, strict);
        TimelineResultsGo(replies, v, i, strict);
      }
    }
  }

  lemma TimelineResultsGo(replies: seq<Reply>, v: Values, i: nat, strict: bool)
    requires i < MaxPages && TimelineGoesOn(Answer(replies, i), strict)
    requires var n := Timeline(replies, Below(v, Answer(replies, i).statuses), i + 1, strict);
      n.results == Collected(replies, Answered(n), i + 1)
    ensures Timeline(replies, v, i, strict).results == Collected(replies, Answered(Timeline(replies, v, i, strict)), i)
  {
    var nv := Below(v, Answer(replies, i).statuses);
    TimelineCount(replies, nv, i + 1, strict);
    TimelineUnfold(replies, v, i, strict);
    ResultsCons(replies, v, i, Timeline(replies, v, i, strict), Timeline(replies, nv, i + 1, strict));
  }

  lemma TimelineResultsStop(replies: seq<Reply>, v: Values, i: nat, strict: bool)
    requires i < MaxPages && !TimelineGoesOn(Answer(replies, i), strict)
    ensures Timeline(replies, v, i, strict).results == Collected(replies, Answered(Timeline(replies, v, i, strict)), i)
  {
    var reply := Answer(replies, i);
    if reply.TransportError? || (strict && !reply.decodeOk) {
      assert Timeline(replies, v, i, strict) == Run([], [v], true);
    } else {
      assert Timeline(replies, v, i, strict) == Run([], [v], false);
      assert Collected(replies, [v], i) == Page(reply) + Collected(replies, [], i + 1);
    }
  }

  /** A search call sends between one and five requests, the first with the initial query. */
  lemma {:induction false} SearchCount(replies: seq<Reply>, parseQuery: string -> Option<Values>, q: Values, i: nat)
    ensures var rs := Search(replies, parseQuery, q, i).requests; i < MaxPages ==> 0 < |rs| <= MaxPages - i && rs[0] == q
    ensures i >= MaxPages ==> Search(replies, parseQuery, q, i) == Run([], [], false)
    decreases MaxPages - i
  {
    if i < MaxPages && SearchGoesOn(Answer(replies, i), parseQuery) {
      SearchCount(replies, parseQuery, parseQuery(Answer(replies, i).nextResults[1..]).value, i + 1);
    }
  }

  /**
   * Each search request after the first follows a reply whose
   * `next_results` is non-empty and parses, and is what it parses to.
   */
  lemma {:induction false} SearchChain(replies: seq<Reply>, parseQuery: string -> Option<Values>, q: Values, i: nat)
    ensures SearchLinked(replies, parseQuery, Search(replies, parseQuery, q, i).requests, i)
    decreases MaxPages - i
  {
    if i < MaxPages && SearchGoesOn(Answer(replies, i), parseQuery) {
      SearchChain(replies, parseQuery, parseQuery(Answer(replies, i).nextResults[1..]).value, i + 1);
      SearchChainGo(replies, parseQuery, q, i);
    }
  }

  lemma SearchChainGo(replies: seq<Reply>, parseQuery: string -> Option<Values>, q: Values, i: nat)
    requires i < MaxPages && SearchGoesOn(Answer(replies, i), parseQuery)
    requires SearchLinked(replies, parseQuery,
      Search(replies, parseQuery, parseQuery(Answer(replies, i).nextResults[1..]).value, i + 1).requests, i + 1)
    ensures SearchLinked(replies, parseQuery, Search(replies, parseQuery, q, i).requests, i)
  {
    var nq := parseQuery(Answer(replies, i).nextResults[1..]).value;
    SearchCount(replies, parseQuery, nq, i + 1);
    SearchUnfold(replies, parseQuery, q, i);
    SearchLinkedCons(replies, parseQuery, q, Search(replies, parseQuery, nq, i + 1).requests, i);
  }

  /** Each request after the first follows a reply whose `next_results` is non-empty and parses, and is what it parses to. */
  ghost predicate SearchLinked(replies: seq<Reply>, parseQuery: string -> Option<Values>, rs: seq<Values>, i: nat)
  {
    forall k :: 0 <= k < |rs| - 1 ==> SearchLink(replies, parseQuery, rs, i, k)
  }

  /** Request `k + 1` of `rs` is what the `next_results` of the reply to request `k` parses to. */
  ghost predicate SearchLink(replies: seq<Reply>, parseQuery: string -> Option<Values>, rs: seq<Values>, i: nat, k: nat)
  {
    k + 1 < |rs| &&
    SearchGoesOn(Answer(replies, i + k), parseQuery) &&
    rs[k + 1] == parseQuery(Answer(replies, i + k).nextResults[1..]).value
  }

  lemma SearchLinkedCons(replies: seq<Reply>, parseQuery: string -> Option<Values>, q: Values, ns: seq<Values>, i: nat)
    requires SearchLinked(replies, parseQuery, ns, i + 1)
    requires ns != [] ==> SearchGoesOn(Answer(replies, i), parseQuery) && ns[0] == parseQuery(Answer(replies, i).nextResults[1..]).value
    ensures SearchLinked(replies, parseQuery, [q] + ns, i)
  {
    var rs := [q] + ns;
    forall k | 0 <= k < |rs| - 1 ensures SearchLink(replies, parseQuery, rs, i, k) {
      if k > 0 {
        assert SearchLink(replies, parseQuery, ns, i + 1, k - 1);
        assert rs[k] == ns[k - 1] && rs[k + 1] == ns[k];
        assert i + k == (i + 1) + (k - 1);
      }
    }
  }

  /**
   * How a search run that started at request `i` ended: it exited exactly
   * when its last request failed in transport; short of five requests its
   * last reply has an empty or unparsable `next_results`.
   */
  ghost predicate SearchEnded(replies: seq<Reply>, parseQuery: string -> Option<Values>, r: Run, i: nat)
  {
    r.requests != [] ==>
      (r.exited <==> LastReply(replies, r, i).TransportError?) &&
      (i + |r.requests| < MaxPages ==> !SearchGoesOn(LastReply(replies, r, i), parseQuery))
  }

  lemma {:induction false} SearchEnds(replies: seq<Reply>, parseQuery: string -> Option<Values>, q: Values, i: nat)
    ensures SearchEnded(replies, parseQuery, Search(replies, parseQuery, q, i), i)
    decreases MaxPages - i
  {
    if i < MaxPages {
      if !SearchGoesOn(Answer(replies, i), parseQuery) {
        SearchEndsStop(replies, parseQuery, q, i);
      } else {
        var nq := parseQuery(Answer(replies, i).nextResults[1..]).value;
        SearchEnds(replies, parseQuery, nq, i + 1);
        SearchCount(replies, parseQuery, nq, i + 1);
        SearchUnfold(replies, parseQuery, q, i);
        SearchEndedCons(replies, parseQuery, q, i, Search(replies, parseQuery, q, i), Search(replies, parseQuery, nq, i + 1));
      }
    }
  }

  lemma SearchEndsStop(replies: seq<Reply>, parseQuery: string -> Option<Values>, q: Values, i: nat)
    requires i < MaxPages && !SearchGoesOn(Answer(replies, i), parseQuery)
    ensures SearchEnded(replies, parseQuery, Search(replies, parseQuery, q, i), i)
  {
    var r := Search(replies, parseQuery, q, i);
    assert r.requests == [q] && r.exited == Answer(replies, i).TransportError?;
    assert LastReply(replies, r, i) == Answer(replies, i);
  }

  lemma SearchEndedCons(replies: seq<Reply>, parseQuery: string -> Option<Values>, q: Values, i: nat, r: Run, n: Run)
    requires r.requests == [q] + n.requests && r.exited == n.exited && SearchGoesOn(Answer(replies, i), parseQuery)
    requires SearchEnded(replies, parseQuery, n, i + 1)
    requires n.requests == [] ==> !n.exited && i + 1 >= MaxPages
    ensures SearchEnded(replies, parseQuery, r, i)
  {
    if n.requests != [] {
      LastReplyShift(replies, r, n, q, i);
    }
  }

  /** What a search call collects: the pages of its requests in order; when it exits, nothing of the last reply. */
  lemma {:induction false} SearchResults(replies: seq<Reply>, parseQuery: string -> Option<Values>, q: Values, i: nat)
    ensures Search(replies, parseQuery, q, i).results == Collected(replies, Answered(Search(replies, parseQuery, q, i)), i)
    decreases MaxPages - i
  {
    if i < MaxPages {
      if !SearchGoesOn(Answer(replies, i), parseQuery) {
        SearchResultsStop(replies, parseQuery, q, i);
      } else {
        SearchResults(replies, parseQuery, parseQuery(Answer(replies, i).nextResults[1..]).value, i + 1);
        SearchResultsGo(replies, parseQuery, q, i);
      }
    }
  }

  lemma SearchResultsGo(replies: seq<Reply>, parseQuery: string -> Option<Values>, q: Values, i: nat)
    requires i < MaxPages && SearchGoesOn(Answer(replies, i), parseQuery)
    requires var n := Search(replies, parseQuery, parseQuery(Answer(replies, i).nextResults[1..]).value, i + 1);
      n.results == Collected(replies, Answered(n), i + 1)
    ensures Search(replies, parseQuery, q, i).results == Collected(replies, Answered(Search(replies, parseQuery, q, i)), i)
  {
    var nq := parseQuery(Answer(replies, i).nextResults[1..]).value;
    SearchCount(replies, parseQuery, nq, i + 1);
    SearchUnfold(replies, parseQuery, q, i);
    ResultsCons(replies, q, i, Search(replies, parseQuery, q, i), Search(replies, parseQuery, nq, i + 1));
  }

  lemma SearchResultsStop(replies: seq<Reply>, parseQuery: string -> Option<Values>, q: Values, i: nat)
    requires i < MaxPages && !SearchGoesOn(Answer(replies, i), parseQuery)
    ensures Search(replies, parseQuery, q, i).results == Collected(replies, Answered(Search(replies, parseQuery, q, i)), i)
  {
    var reply := Answer(replies, i);
    if reply.TransportError? {
      assert Search(replies, parseQuery, q, i) == Run([], [q], true);
    } else {
      assert Search(replies, parseQuery, q, i) == Run(reply.statuses, [q], false);
      assert Collected(replies, [q], i) == Page(reply) + Collected(replies, [], i + 1);
    }
  }

  /** A reply with its status forgotten. */
  function WithoutStatus(r: Reply): Reply
  {
    if r.TransportError? then r else r.(status := 200)
  }

  /** Two servers that answer every request alike but for the status code. */
  ghost predicate SameButStatus(s1: seq<Reply>, s2: seq<Reply>)
  {
    |s1| == |s2| && forall n :: 0 <= n < |s1| ==> WithoutStatus(s1[n]) == WithoutStatus(s2[n])
  }

  /** A non-200 status changes nothing in a timeline call: the page is decoded and appended all the same. */
  lemma {:induction false} TimelineIgnoresStatus(s1: seq<Reply>, s2: seq<Reply>, v: Values, i: nat, strict: bool)
    requires SameButStatus(s1, s2)
    ensures Timeline(s1, v, i, strict) == Timeline(s2, v, i, strict)
    decreases MaxPages - i
  {
    if i < MaxPages {
      assert WithoutStatus(Answer(s1, i)) == WithoutStatus(Answer(s2, i));
      if Answer(s1, i).Reply? && Answer(s1, i).statuses != [] {
        TimelineIgnoresStatus(s1, s2, Below(v, Answer(s1, i).statuses), i + 1, strict);
      }
    }
  }

  /** A non-200 status changes nothing in a search call. */
  lemma {:induction false} SearchIgnoresStatus(s1: seq<Reply>, s2: seq<Reply>,
                                               parseQuery: string -> Option<Values>, q: Values, i: nat)
    requires SameButStatus(s1, s2)
    ensures Search(s1, parseQuery, q, i) == Search(s2, parseQuery, q, i)
    decreases MaxPages - i
  {
    if i < MaxPages {
      assert WithoutStatus(Answer(s1, i)) == WithoutStatus(Answer(s2, i));
      if SearchGoesOn(Answer(s1, i), parseQuery) {
        SearchIgnoresStatus(s1, s2, parseQuery, parseQuery(Answer(s1, i).nextResults[1..]).value, i + 1);
      }
    }
  }

  /** A turn of the stream loop on a 200 answer, as `Maintain` takes it: the body's lines, backoff reset. */
  lemma StreamConnected(b: nat, atts: seq<Response>, i: nat)
    requires i < |atts| && atts[i].status == 200
    ensures Maintain(b, atts[i..]).0 == Lines(Frame(atts[i].body)) + Maintain(0, atts[i + 1..]).0
    ensures Maintain(b, atts[i..]).1 == Maintain(0, atts[i + 1..]).1
  {
    assert atts[i..][0] == atts[i] && atts[i..][1..] == atts[i + 1..];
  }

  /** A turn on a rate-limit answer: one sleep of the increased backoff. */
  lemma StreamRateLimited(b: nat, atts: seq<Response>, i: nat)
    requires i < |atts| && Retryable(atts[i].status)
    ensures Maintain(b, atts[i..]).0 == [Sleep(NextBackoff(b))] + Maintain(NextBackoff(b), atts[i + 1..]).0
    ensures Maintain(b, atts[i..]).1 == Maintain(NextBackoff(b), atts[i + 1..]).1
  {
    assert atts[i..][0] == atts[i] && atts[i..][1..] == atts[i + 1..];
  }

  /** A turn on any other answer: the channel is closed and the loop ends. */
  lemma StreamRefused(b: nat, atts: seq<Response>, i: nat)
    requires i < |atts| && Fatal(atts[i].status)
    ensures Maintain(b, atts[i..]) == ([Closed], b)
  {
    assert atts[i..][0] == atts[i];
  }

  class TwitterClient {
    /** Seconds to sleep after the latest rate-limited stream connection. */
    var streamBackoff: nat

    constructor ()
      ensures streamBackoff == 0
    {
      streamBackoff := 0;
    }

    /** Keeps the user stream up over the given connection attempts. */
    method MaintainUserStream(attempts: seq<Response>) returns (trace: seq<StreamEvent>)
      modifies this
      ensures trace == Maintain(old(streamBackoff), attempts).0
      ensures streamBackoff == Maintain(old(streamBackoff), attempts).1
    {
      ghost var goal := Maintain(streamBackoff, attempts);
      trace := [];
      var i := 0;
      assert attempts[0..] == attempts;
      while i < |attempts|
        invariant 0 <= i <= |attempts|
        invariant trace + Maintain(streamBackoff, attempts[i..]).0 == goal.0
        invariant Maintain(streamBackoff, attempts[i..]).1 == goal.1
        decreases |attempts| - i
      {
        var resp := attempts[i];
        ghost var before := trace;
        if resp.status == 200 {
          StreamConnected(streamBackoff, attempts, i);
          streamBackoff := 0;
          var lines := ReadHttpStream(resp.body);
          trace := trace + Lines(lines);
          ConcatAssoc(before, Lines(lines), Maintain(streamBackoff, attempts[i + 1..]).0);
        } else if resp.status == 420 || resp.status == 503 {
          StreamRateLimited(streamBackoff, attempts, i);
          if streamBackoff == 0 {
            streamBackoff := 5;
          } else {
            streamBackoff := streamBackoff * 2;
          }
          trace := trace + [Sleep(streamBackoff)];
          ConcatAssoc(before, [Sleep(streamBackoff)], Maintain(streamBackoff, attempts[i + 1..]).0);
        } else {
          StreamRefused(streamBackoff, attempts, i);
          trace := trace + [Closed];
          return;
        }
        i := i + 1;
      }
    }

    /** Back-fills a search: up to five pages following `next_results`. */
    method FillSearch(search: string, sinceId: int, replies: seq<Reply>, parseQuery: string -> Option<Values>)
      returns (results: seq<Tweet>, requests: seq<Values>, exited: bool)
      ensures Run(results, requests, exited) == Search(replies, parseQuery, SearchQuery(search, sinceId), 0)
    {
      var v: Values := map["count" := Text("100"), "result_type" := Text("recent"), "q" := Text(search)];
      if sinceId != 0 {
        v := v["since_id" := Number(sinceId)];
      }
      ghost var goal := Search(replies, parseQuery, v, 0);
      var query := v;
      results, requests, exited := [], [], false;
      for i := 0 to MaxPages
        invariant results + Search(replies, parseQuery, query, i).results == goal.results
        invariant requests + Search(replies, parseQuery, query, i).requests == goal.requests
        invariant Search(replies, parseQuery, query, i).exited == goal.exited
      {
        ghost var before := (results, requests);
        requests := requests + [query];
        var reply := Answer(replies, i);
        if reply.TransportError? {
          // os.Exit(1)
          exited := true;
          return;
        }
        results := results + reply.statuses;
        if reply.nextResults == "" {
          return;
        }
        var nv := parseQuery(reply.nextResults[1..]);
        if nv.None? {
          return;
        }
        SearchNext(replies, parseQuery, query, i, before.0, before.1, goal);
        query := nv.value;
      }
    }

    /** Back-fills a user's timeline: up to five pages, each below the previous page's last id. */
    method FillUserTimeline(screenName: string, sinceId: int, replies: seq<Reply>)
      returns (results: seq<Tweet>, requests: seq<Values>, exited: bool)
      ensures Run(results, requests, exited) == Timeline(replies, UserTimelineQuery(screenName, sinceId), 0, false)
    {
      var v: Values := map["count" := Text("200"), "screen_name" := Text(screenName), "include_rts" := Text("1")];
      if sinceId != 0 {
        v := v["since_id" := Number(sinceId)];
      }
      assert v == UserTimelineQuery(screenName, sinceId);
      ghost var goal := Timeline(replies, UserTimelineQuery(screenName, sinceId), 0, false);
      results, requests, exited := [], [], false;
      for i := 0 to MaxPages
        invariant results + Timeline(replies, v, i, false).results == goal.results
        invariant requests + Timeline(replies, v, i, false).requests == goal.requests
        invariant Timeline(replies, v, i, false).exited == goal.exited
      {
        ghost var before := (results, requests);
        requests := requests + [v];
        var reply := Answer(replies, i);
        if reply.TransportError? {
          // os.Exit(1)
          exited := true;
          return;
        }
        var page := reply.statuses;
        results := results + page;
        if |page| > 0 {
          var nextV := Below(v, page);
          TimelineNext(replies, v, i, false, page, nextV, before.0, before.1, goal);
          v := nextV;
        } else {
          return;
        }
      }
    }

    /** Back-fills the home timeline; a body that does not decode ends the process. */
    method FillHomeTimeline(sinceId: int, replies: seq<Reply>)
      returns (results: seq<Tweet>, requests: seq<Values>, exited: bool)
      ensures Run(results, requests, exited) == Timeline(replies, HomeTimelineQuery(sinceId), 0, true)
    {
      var v: Values := map["count" := Text("200"), "include_entities" := Text("1")];
      if sinceId != 0 {
        v := v["since_id" := Number(sinceId)];
      }
      assert v == HomeTimelineQuery(sinceId);
      ghost var goal := Timeline(replies, HomeTimelineQuery(sinceId), 0, true);
      results, requests, exited := [], [], false;
      for i := 0 to MaxPages
        invariant results + Timeline(replies, v, i, true).results == goal.results
        invariant requests + Timeline(replies, v, i, true).requests == goal.requests
        invariant Timeline(replies, v, i, true).exited == goal.exited
      {
        ghost var before := (results, requests);
        requests := requests + [v];
        var reply := Answer(replies, i);
        if reply.TransportError? || !reply.decodeOk {
          // os.Exit(1)
          exited := true;
          return;
        }
        var page := reply.statuses;
        results := results + page;
        if |page| > 0 {
          var nextV := Below(v, page);
          TimelineNext(replies, v, i, true, page, nextV, before.0, before.1, goal);
          v := nextV;
        } else {
          return;
        }
      }
    }
  }
}
