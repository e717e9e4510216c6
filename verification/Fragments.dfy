/** Fragment trains: how a body is cut to the inline budget on one side and put together on the other.
    The caller's requests (server-go/bus/module_caller.go) and the runtime's replies
    (server-go/bus/module_runtime.go) are cut the same way and differ only in their header. */
module Fragments {
  import opened Words
  import MC = ModuleCodec

  /** One fragment as handed to `RequestFragment` or `ReplyFragment`. */
  datatype Fragment = Fragment(kind: u32, correlation: u64, payload: seq<byte>, more: bool)

  /** `body` in pieces of `n` bytes; an empty body is one empty piece. */
  function Chunks(body: seq<byte>, n: nat): (parts: seq<seq<byte>>)
    requires n > 0
    ensures |parts| > 0
    decreases |body|
  {
    if |body| <= n then [body] else [body[..n]] + Chunks(body[n..], n)
  }

  function Join(parts: seq<seq<byte>>): seq<byte> {
    if parts == [] then [] else Join(parts[..|parts| - 1]) + parts[|parts| - 1]
  }

  lemma {:induction false} JoinPrepend(p: seq<byte>, parts: seq<seq<byte>>)
    ensures Join([p] + parts) == p + Join(parts)
  {
    if parts == [] {
      assert [p][..0] == [];
    } else {
      var front, last := parts[..|parts| - 1], parts[|parts| - 1];
      assert ([p] + parts)[..|parts|] == [p] + front;
      JoinPrepend(p, front);
    }
  }

  /** Putting the pieces together in order gives the body back, for every body and piece size. */
  lemma {:induction false} JoinOfChunks(body: seq<byte>, n: nat)
    requires n > 0
    ensures Join(Chunks(body, n)) == body
    decreases |body|
  {
    if |body| <= n {
      assert [body][..0] == [];
    } else {
      JoinOfChunks(body[n..], n);
      JoinPrepend(body[..n], Chunks(body[n..], n));
      assert body == body[..n] + body[n..];
    }
  }

  /** There are max(1, ceil(len / n)) pieces, all of them full but the last, which is empty only alone. */
  lemma {:induction false} ChunkShape(body: seq<byte>, n: nat)
    requires n > 0
    ensures var parts := Chunks(body, n);
      && |parts| == (if body == [] then 1 else (|body| + n - 1) / n)
      && (forall i :: 0 <= i < |parts| - 1 ==> |parts[i]| == n)
      && |parts[|parts| - 1]| <= n && (body != [] ==> |parts[|parts| - 1]| > 0)
      && (forall i :: 0 <= i < |parts| ==> |parts[i]| <= n && |parts[i]| <= |body| && (|parts| > 1 ==> |parts[i]| > 0))
    decreases |body|
  {
    var parts := Chunks(body, n);
    if |body| <= n {
      if body != [] { ModUnique(|body| + n - 1, n, 1, |body| - 1); }
    } else {
      ChunkShape(body[n..], n);
      var rest := Chunks(body[n..], n);
      var x := |body| - 1;
      assert |body[n..]| + n - 1 == x;
      ModUnique(x + n, n, x / n + 1, x % n);
      assert forall i :: 1 <= i < |parts| ==> parts[i] == rest[i - 1];
    }
  }

  /** The train of fragments that carries `body` under the header `m`. */
  function Train(kind: u32, correlation: u64, m: MC.Message, body: seq<byte>, chunk: nat): (t: seq<Fragment>)
    requires 0 < chunk < TWO32
    ensures |t| == |Chunks(body, chunk)|
  {
    ChunkShape(body, chunk);
    var parts := Chunks(body, chunk);
    seq(|parts|, i requires 0 <= i < |parts| => FragmentOf(kind, correlation, m, parts[i], i + 1 < |parts|))
  }

  function FragmentOf(kind: u32, correlation: u64, m: MC.Message, part: seq<byte>, more: bool): Fragment
    requires |part| < TWO32
  {
    Fragment(kind, correlation, MC.Bytes(m.(bodyLen := |part|)) + part, more)
  }

  /** What a receiver reads out of one fragment of a train. */
  lemma FragmentReads(kind: u32, correlation: u64, m: MC.Message, part: seq<byte>, more: bool)
    requires MC.Valid(m) && |part| <= MC.MAX_BODY
    ensures var p := FragmentOf(kind, correlation, m, part, more).payload;
      |p| == MC.HEADER_LEN + |part|
      && MC.Decode(p) == MC.Decoded(m.(bodyLen := |part|)) && p[MC.HEADER_LEN..MC.HEADER_LEN + |part|] == part
  {
    hide MC.Bytes, MC.Decode;
    MC.DecodeOfBytes(m.(bodyLen := |part|), part);
  }

  /** Every fragment fits the budget that leaves `chunk` bytes beside the header, and only the last
      closes the train. */
  lemma TrainShape(kind: u32, correlation: u64, m: MC.Message, body: seq<byte>, chunk: nat)
    requires 0 < chunk < TWO32
    ensures var t := Train(kind, correlation, m, body, chunk);
      && |t| == (if body == [] then 1 else (|body| + chunk - 1) / chunk)
      && (forall i :: 0 <= i < |t| ==>
            t[i].kind == kind && t[i].correlation == correlation && (t[i].more <==> i + 1 < |t|)
            && MC.HEADER_LEN <= |t[i].payload| <= MC.HEADER_LEN + chunk)
  {
    hide MC.Bytes;
    ChunkShape(body, chunk);
  }

  function Flatten(trains: seq<seq<Fragment>>): seq<Fragment> {
    if trains == [] then [] else Flatten(trains[..|trains| - 1]) + trains[|trains| - 1]
  }

  /** The fragments of one correlation. */
  function Of(out: seq<Fragment>, c: u64): seq<Fragment> {
    if out == [] then []
    else Of(out[..|out| - 1], c) + (if out[|out| - 1].correlation == c then [out[|out| - 1]] else [])
  }

  lemma {:induction false} OfAppend(a: seq<Fragment>, b: seq<Fragment>, c: u64)
    ensures Of(a + b, c) == Of(a, c) + Of(b, c)
  {
    if b == [] {
      assert a + b == a;
    } else {
      assert (a + b)[..|a + b| - 1] == a + b[..|b| - 1];
      OfAppend(a, b[..|b| - 1], c);
    }
  }

  lemma {:induction false} OfAll(t: seq<Fragment>, c: u64)
    ensures (forall f :: f in t ==> f.correlation == c) ==> Of(t, c) == t
    ensures (forall f :: f in t ==> f.correlation != c) ==> Of(t, c) == []
  {
    if t != [] {
      OfAll(t[..|t| - 1], c);
      assert t == t[..|t| - 1] + [t[|t| - 1]];
    }
  }
}
