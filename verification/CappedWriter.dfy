/** The capped output writer of internal/cmdexec/cappedwriter.go: it keeps a prefix of what it is
    given, drains the rest, and never refuses a write. */
module CappedWriter {

  type Bytes = seq<char>

  datatype Captured = Captured(buf: Bytes, truncated: bool)

  const NOTHING := Captured([], false)

  function Min(a: nat, b: nat): nat {
    if a < b then a else b
  }

  /** What one write adds. */
  function Add(cap: nat, s: Captured, p: Bytes): Captured {
    var remaining := cap - |s.buf|;
    if remaining <= 0 then s.(truncated := s.truncated || p != [])
    else if |p| > remaining then Captured(s.buf + p[..remaining], true)
    else s.(buf := s.buf + p)
  }

  class Writer {
    const cap: nat
    var buf: Bytes
    var truncated: bool

    function State(): Captured
      reads this
    {
      Captured(buf, truncated)
    }

    constructor (cap: nat)
      ensures this.cap == cap && State() == NOTHING
    {
      this.cap := cap;
      buf, truncated := [], false;
    }

    /** Write reports the full length whatever it keeps. */
    method Write(p: Bytes) returns (n: nat)
      requires |buf| <= cap
      modifies this
      ensures n == |p| && |buf| <= cap
      ensures State() == Add(cap, old(State()), p)
    {
      n := |p|;
      if cap == 0 {
        if n > 0 {
          truncated := true;
        }
        return;
      }
      var remaining := cap - |buf|;
      if remaining <= 0 {
        if n > 0 {
          truncated := true;
        }
        return;
      }
      if |p| > remaining {
        buf := buf + p[..remaining];
        truncated := true;
      } else {
        buf := buf + p;
      }
    }

    /** Any sequence of writes into a new writer. */
    method WriteAll(chunks: seq<Bytes>)
      requires State() == NOTHING
      modifies this
      ensures State() == Captured(Flatten(chunks)[..Min(cap, |Flatten(chunks)|)], |Flatten(chunks)| > cap)
    {
      for i := 0 to |chunks|
        invariant |buf| <= cap && State() == AddAll(cap, chunks[..i])
      {
        assert chunks[..i + 1][..i] == chunks[..i];
        var n := Write(chunks[i]);
      }
      assert chunks[..|chunks|] == chunks;
      CapturesPrefix(cap, chunks);
    }
  }

  function AddAll(cap: nat, chunks: seq<Bytes>): Captured {
    if chunks == [] then NOTHING else Add(cap, AddAll(cap, chunks[..|chunks| - 1]), chunks[|chunks| - 1])
  }

  function Flatten(chunks: seq<Bytes>): Bytes {
    if chunks == [] then [] else Flatten(chunks[..|chunks| - 1]) + chunks[|chunks| - 1]
  }

  /** The captured bytes are the first `cap` of everything written, and the flag says whether there
      was more. */
  lemma {:induction false} CapturesPrefix(cap: nat, chunks: seq<Bytes>)
    ensures var all := Flatten(chunks);
            AddAll(cap, chunks) == Captured(all[..Min(cap, |all|)], |all| > cap)
  {
    if chunks != [] {
      var front, p := chunks[..|chunks| - 1], chunks[|chunks| - 1];
      CapturesPrefix(cap, front);
      var before := Flatten(front);
      if |before| < cap && |p| > cap - |before| {
        assert (before + p)[..cap] == before + p[..cap - |before|];
      } else if |before| >= cap {
        assert (before + p)[..cap] == before[..cap];
      }
    }
  }

  /** How the output was cut into writes does not matter. */
  lemma ChunkingIrrelevant(cap: nat, a: seq<Bytes>, b: seq<Bytes>)
    requires Flatten(a) == Flatten(b)
    ensures AddAll(cap, a) == AddAll(cap, b)
  {
    CapturesPrefix(cap, a);
    CapturesPrefix(cap, b);
  }
}
