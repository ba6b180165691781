/**
 * Frame reassembly of the dev-mode websocket bridge
 * (v2/internal/frontend/devserver/devserver.go, the read loop of handleIPCWebSocket).
 *
 * A connection delivers a sequence of transport frames. A frame that starts with the
 * marker `C{"` opens a fragmented message: frames are appended to a buffer until the
 * frame just read (not the buffer) ends with `"}`. Running out of frames, which is a
 * read error on the socket, ends the connection and discards the buffer.
 *
 * Each character of a `string` stands for one byte of the frame.
 */
module Framing {

  /** The marker that opens a fragmented message. */
  const Open: string := "C{\""

  /** The bytes that the last frame of a fragmented message ends with. */
  const Close: string := "\"}"

  predicate HasPrefix(s: string, p: string) {
    |p| <= |s| && s[..|p|] == p
  }

  predicate HasSuffix(s: string, p: string) {
    |p| <= |s| && s[|s| - |p|..] == p
  }

  /** The frames written one after the other into the buffer. */
  function Concat(frames: seq<string>): string {
    if |frames| == 0 then "" else frames[0] + Concat(frames[1..])
  }

  /** One attempt to read a complete message: either the read failed (the connection
    * ends), or a message was assembled from the first `used` frames. */
  datatype Read = Closed | Complete(msg: string, used: nat)

  lemma ConcatFirst(frames: seq<string>, n: nat)
    requires 1 <= n <= |frames|
    ensures Concat(frames[..n]) == frames[0] + Concat(frames[1..][..n - 1])
  {
    assert frames[..n][1..] == frames[1..][..n - 1];
  }

  /**
   * The inner loop of the reassembly: absorb frames up to and including the first one
   * whose own bytes end with `"}`.
   */
  function Gather(frames: seq<string>): (r: Read)
    ensures r.Closed? <==> forall i :: 0 <= i < |frames| ==> !HasSuffix(frames[i], Close)
    ensures r.Complete? ==>
      && 1 <= r.used <= |frames|
      && HasSuffix(frames[r.used - 1], Close)
      && (forall i :: 0 <= i < r.used - 1 ==> !HasSuffix(frames[i], Close))
      && r.msg == Concat(frames[..r.used])
  {
    if |frames| == 0 then Closed
    else if HasSuffix(frames[0], Close) then
      assert frames[..1] == [frames[0]];
      Complete(frames[0], 1)
    else
      var tail := Gather(frames[1..]);
      GatherExtends(frames, tail);
      match tail
      case Closed => Closed
      case Complete(rest, n) => Complete(frames[0] + rest, n + 1)
  }

  /** The step of `Gather`: a first frame that does not close the message shifts the
    * outcome of the remaining frames by one frame. */
  lemma GatherExtends(frames: seq<string>, tail: Read)
    requires |frames| > 0 && !HasSuffix(frames[0], Close)
    requires tail.Closed? <==> forall i :: 0 <= i < |frames| - 1 ==> !HasSuffix(frames[1..][i], Close)
    requires tail.Complete? ==>
      && 1 <= tail.used <= |frames| - 1
      && HasSuffix(frames[1..][tail.used - 1], Close)
      && (forall i :: 0 <= i < tail.used - 1 ==> !HasSuffix(frames[1..][i], Close))
      && tail.msg == Concat(frames[1..][..tail.used])
    ensures tail.Closed? <==> forall i :: 0 <= i < |frames| ==> !HasSuffix(frames[i], Close)
    ensures tail.Complete? ==>
      && HasSuffix(frames[tail.used], Close)
      && (forall i :: 0 <= i < tail.used ==> !HasSuffix(frames[i], Close))
      && frames[0] + tail.msg == Concat(frames[..tail.used + 1])
  {
    assert forall i :: 0 < i < |frames| ==> frames[i] == frames[1..][i - 1];
    if tail.Complete? {
      ConcatFirst(frames, tail.used + 1);
    }
  }

  /** Reading one complete message from the frames still to come on a connection. */
  function Reassemble(frames: seq<string>): (r: Read)
    ensures r.Complete? ==> 1 <= r.used <= |frames|
  {
    if |frames| == 0 then Closed
    else if !HasPrefix(frames[0], Open) then Complete(frames[0], 1)
    else Gather(frames)
  }

  /** A frame that does not open a fragmented message is the whole message, unchanged. */
  lemma PlainFramePassesThrough(frames: seq<string>)
    requires |frames| > 0 && !HasPrefix(frames[0], Open)
    ensures Reassemble(frames) == Complete(frames[0], 1)
  {
  }

  /** The frames of a fragmented message are absorbed exactly up to the first frame
    * ending with `"}`, and the message is their in-order concatenation. */
  lemma {:induction false} GatherStopsAtFirstClosingFrame(frames: seq<string>, n: nat)
    requires 1 <= n <= |frames|
    requires HasSuffix(frames[n - 1], Close)
    requires forall i :: 0 <= i < n - 1 ==> !HasSuffix(frames[i], Close)
    ensures Gather(frames) == Complete(Concat(frames[..n]), n)
  {
    assert HasSuffix(frames[n - 1], Close);
  }

  lemma FragmentedMessageReassembly(frames: seq<string>, n: nat)
    requires 1 <= n <= |frames| && HasPrefix(frames[0], Open)
    requires HasSuffix(frames[n - 1], Close)
    requires forall i :: 0 <= i < n - 1 ==> !HasSuffix(frames[i], Close)
    ensures Reassemble(frames) == Complete(Concat(frames[..n]), n)
  {
    GatherStopsAtFirstClosingFrame(frames, n);
  }

  /** When no frame ends with `"}`, the read fails: the partial buffer is dropped and
    * no message is delivered. */
  lemma UnterminatedMessageIsDiscarded(frames: seq<string>)
    requires |frames| > 0 && HasPrefix(frames[0], Open)
    requires forall i :: 0 <= i < |frames| ==> !HasSuffix(frames[i], Close)
    ensures Reassemble(frames) == Closed
  {
  }

  /** No frame after the ones a message used is consumed: whatever follows them, the
    * same message is read. */
  lemma {:induction false} ReassembleIgnoresLaterFrames(frames: seq<string>, later: seq<string>)
    requires Reassemble(frames).Complete?
    ensures Reassemble(frames[..Reassemble(frames).used] + later) == Reassemble(frames)
  {
    var r := Reassemble(frames);
    var n := r.used;
    var fs := frames[..n] + later;
    assert fs[..n] == frames[..n];
    assert forall i :: 0 <= i < n ==> fs[i] == frames[i];
    if HasPrefix(frames[0], Open) {
      assert fs[0] == frames[0];
      GatherStopsAtFirstClosingFrame(fs, n);
    }
  }

  /** A message split into frames of which only the last ends with `"}` is reassembled
    * to exactly the concatenation of its pieces, wherever the splits fall. */
  lemma SplitMessageReassembles(pieces: seq<string>, later: seq<string>)
    requires |pieces| > 0 && HasPrefix(pieces[0], Open)
    requires HasSuffix(pieces[|pieces| - 1], Close)
    requires forall i :: 0 <= i < |pieces| - 1 ==> !HasSuffix(pieces[i], Close)
    ensures Reassemble(pieces + later) == Complete(Concat(pieces), |pieces|)
  {
    var fs := pieces + later;
    assert fs[..|pieces|] == pieces;
    FragmentedMessageReassembly(fs, |pieces|);
  }

  /**
   * The stop test looks at the last frame read, not at the buffer: a message whose
   * closing `"}` is split between two frames is not recognised as complete, and with no
   * further frame the connection ends without delivering it.
   */
  lemma SplitClosingMarkerIsMissed()
    ensures HasSuffix(Concat(["C{\"a\":\"b\"", "}"]), Close)
    ensures Reassemble(["C{\"a\":\"b\"", "}"]) == Closed
  {
    var fs := ["C{\"a\":\"b\"", "}"];
    assert Concat(fs) == "C{\"a\":\"b\"}" by {
      assert Concat(fs) == fs[0] + Concat(fs[1..]);
      assert Concat(fs[1..]) == fs[1] + Concat(fs[2..]);
    }
    assert HasPrefix(fs[0], Open) by {
      assert fs[0][..3] == Open;
    }
    assert !HasSuffix(fs[0], Close) by {
      assert fs[0][|fs[0]| - 2..] == "b\"";
    }
    assert !HasSuffix(fs[1], Close);
  }

  /**
   * The same test also runs on a message that came whole in one frame: a `C{"` message
   * whose last two bytes are not `"}` (here it ends in `1}`) absorbs the next,
   * unrelated message into its buffer.
   */
  lemma UnquotedCloseAbsorbsNextMessage()
    ensures Reassemble(["C{\"id\":1}", "EBx\"}"]) == Complete("C{\"id\":1}EBx\"}", 2)
  {
    var fs := ["C{\"id\":1}", "EBx\"}"];
    assert HasPrefix(fs[0], Open) by {
      assert fs[0][..3] == Open;
    }
    assert !HasSuffix(fs[0], Close) by {
      assert fs[0][|fs[0]| - 2..] == "1}";
    }
    assert HasSuffix(fs[1], Close) by {
      assert fs[1][|fs[1]| - 2..] == Close;
    }
    assert fs[..2] == fs;
    FragmentedMessageReassembly(fs, 2);
    assert Concat(fs) == fs[0] + Concat(fs[1..]);
    assert Concat(fs[1..]) == fs[1] + Concat(fs[2..]);
  }

  /**
   * Imperative reading of one message from the frames still to come on a connection:
   * the loop appends frames to the buffer while the frame just read does not end with
   * `"}`. `used` in the result is how many frames the socket delivered.
   */
  method ReceiveMessage(inbox: seq<string>) returns (r: Read)
    ensures r == Reassemble(inbox)
  {
    if |inbox| == 0 {
      return Closed;
    }
    var msg := inbox[0];
    var buffer := msg;
    var n := 1;
    assert inbox[..1] == [msg];
    if HasPrefix(msg, Open) {
      while !HasSuffix(msg, Close)
        invariant 1 <= n <= |inbox|
        invariant msg == inbox[n - 1]
        invariant buffer == Concat(inbox[..n])
        invariant forall j :: 0 <= j < n - 1 ==> !HasSuffix(inbox[j], Close)
        decreases |inbox| - n
      {
        if n == |inbox| {
          return Closed;
        }
        msg := inbox[n];
        AppendFrame(inbox, n);
        buffer := buffer + msg;
        n := n + 1;
      }
      GatherStopsAtFirstClosingFrame(inbox, n);
    }
    return Complete(buffer, n);
  }

  lemma {:induction false} AppendFrame(frames: seq<string>, n: nat)
    requires n < |frames|
    ensures Concat(frames[..n + 1]) == Concat(frames[..n]) + frames[n]
  {
    if n == 0 {
      assert frames[..1] == [frames[0]];
    } else {
      ConcatFirst(frames, n + 1);
      ConcatFirst(frames, n);
      AppendFrame(frames[1..], n - 1);
    }
  }
}
