/** What the enclave holds, and what comes out of it, after any sequence of operations. */
module EnclaveRuns {
  import opened Words
  import opened FlatMemory
  import opened SimdPacker
  import opened Enclave

  /** The range has no byte in common with the enclave at `at`. */
  predicate Apart(at: nat, p: nat, n: nat) {
    p + n <= at || at + ENCLAVE_SIZE <= p
  }

  /** An accepted message is stored as its reversal, whether it came from outside the enclave or
      from inside, and nothing else changes. */
  lemma SendStoresReversal(m: seq<Byte>, at: nat, src: nat, n: nat, avx512: bool)
    requires at + n <= |m| && src + n <= |m| && ForwardSafe(at, src, n)
    ensures SendEffect(m, at, src, n, avx512) == Overlay(m, at, Reversed(m[src..src + n]))
  {
    KernelMoves(PackKernel(avx512), m, at, src, n);
    MovedMeaning(m, at, src, n);
    OverlayTwice(m, at, m[src..src + n], Reversed(m[src..src + n]));
  }

  lemma OverlayTwice<T>(m: seq<T>, at: nat, bs: seq<T>, cs: seq<T>)
    requires |bs| == |cs|
    ensures Overlay(Overlay(m, at, bs), at, cs) == Overlay(m, at, cs)
  {
  }

  /** What is received is the prefix of the enclave, and nothing else changes. */
  lemma ReceiveCopiesPrefix(m: seq<Byte>, at: nat, dest: nat, n: nat)
    requires at + ENCLAVE_SIZE <= |m| && n <= ENCLAVE_SIZE && dest + n <= |m| && Apart(at, dest, n)
    ensures ReceiveEffect(m, at, dest, n) == Overlay(m, dest, m[at..at + n])
  {
    KernelMoves(Stream, m, dest, at, n);
    MovedMeaning(m, dest, at, n);
  }

  // ----- runs -----

  /** A send, a receive, or a store by somebody else. */
  datatype Op =
    | Send(src: nat, n: nat)
    | Receive(dest: nat, n: nat)
    | Elsewhere(addr: nat, bytes: seq<Byte>)

  /** Memory, and the messages that were accepted so far. */
  datatype World = World(mem: seq<Byte>, msgs: seq<seq<Byte>>)

  /** The operations of a run: calls that are accepted and return, with buffers in memory; a message
      may be anywhere but across the start of the enclave, other stores must not be in it. */
  predicate Proper(at: nat, avx512: bool, memSize: nat, op: Op) {
    match op
    case Send(src, n) =>
      src != 0 && 0 < n <= DATA_BUFFER_SIZE && src + n <= memSize && ForwardSafe(at, src, n) && (avx512 ==> n % 64 == 0)
    case Receive(dest, n) =>
      dest != 0 && 0 < n <= DATA_BUFFER_SIZE && dest + n <= memSize && Apart(at, dest, n)
    case Elsewhere(addr, bytes) =>
      addr + |bytes| <= memSize && Apart(at, addr, |bytes|)
  }

  function Step(at: nat, avx512: bool, w: World, op: Op): (w': World)
    requires at + ENCLAVE_SIZE <= |w.mem|
    ensures |w'.mem| == |w.mem|
  {
    if !Proper(at, avx512, |w.mem|, op) then w
    else
      match op
      case Send(src, n) => World(SendEffect(w.mem, at, src, n, avx512), w.msgs + [w.mem[src..src + n]])
      case Receive(dest, n) => World(ReceiveEffect(w.mem, at, dest, n), w.msgs)
      case Elsewhere(addr, bytes) => World(Overlay(w.mem, addr, bytes), w.msgs)
  }

  /** A run from the moment the enclave was set up. */
  function Run(at: nat, avx512: bool, m: seq<Byte>, ops: seq<Op>): (w: World)
    requires at + ENCLAVE_SIZE <= |m|
    ensures |w.mem| == |m|
  {
    if ops == [] then World(Overlay(m, at, Zeros(ENCLAVE_SIZE)), [])
    else Step(at, avx512, Run(at, avx512, m, ops[..|ops| - 1]), ops[|ops| - 1])
  }

  function Contents(at: nat, m: seq<Byte>): seq<Byte>
    requires at + ENCLAVE_SIZE <= |m|
  {
    m[at..at + ENCLAVE_SIZE]
  }

  ghost predicate HoldsHistory(at: nat, w: World) {
    && at + ENCLAVE_SIZE <= |w.mem|
    && Contents(at, w.mem) == AfterSends(w.msgs)
    && forall j | 0 <= j < |w.msgs| :: 0 < |w.msgs[j]| <= DATA_BUFFER_SIZE
  }

  lemma StepKeepsHistory(at: nat, avx512: bool, w: World, op: Op)
    requires HoldsHistory(at, w)
    ensures HoldsHistory(at, Step(at, avx512, w, op))
  {
    if Proper(at, avx512, |w.mem|, op) {
      match op
      case Send(src, n) =>
        SendKeepsHistory(at, avx512, w, src, n);
      case Receive(dest, n) =>
        ReceiveKeepsContents(w.mem, at, dest, n);
      case Elsewhere(addr, bytes) =>
        OverlayRead(w.mem, addr, bytes, at, ENCLAVE_SIZE);
    }
  }

  lemma SendKeepsHistory(at: nat, avx512: bool, w: World, src: nat, n: nat)
    requires HoldsHistory(at, w) && Proper(at, avx512, |w.mem|, Send(src, n))
    ensures HoldsHistory(at, Step(at, avx512, w, Send(src, n)))
  {
    var msg := w.mem[src..src + n];
    SendAbsorbs(w.mem, at, src, n, avx512);
    MessageAbsorbed(w.msgs, msg);
    assert Step(at, avx512, w, Send(src, n)) == World(SendEffect(w.mem, at, src, n, avx512), w.msgs + [msg]);
  }

  lemma SendAbsorbs(m: seq<Byte>, at: nat, src: nat, n: nat, avx512: bool)
    requires at + ENCLAVE_SIZE <= |m| && n <= ENCLAVE_SIZE && src + n <= |m| && ForwardSafe(at, src, n)
    ensures Contents(at, SendEffect(m, at, src, n, avx512)) == Overlay(Contents(at, m), 0, Reversed(m[src..src + n]))
  {
    SendStoresReversal(m, at, src, n, avx512);
    ContentsOverlaid(m, at, Reversed(m[src..src + n]));
  }

  lemma ReceiveKeepsContents(m: seq<Byte>, at: nat, dest: nat, n: nat)
    requires at + ENCLAVE_SIZE <= |m| && n <= ENCLAVE_SIZE && dest + n <= |m| && Apart(at, dest, n)
    ensures Contents(at, ReceiveEffect(m, at, dest, n)) == Contents(at, m)
    ensures ReceiveEffect(m, at, dest, n)[dest..dest + n] == Contents(at, m)[..n]
  {
    ReceiveCopiesPrefix(m, at, dest, n);
    OverlayRead(m, dest, m[at..at + n], at, ENCLAVE_SIZE);
    OverlayRead(m, dest, m[at..at + n], dest, n);
  }

  lemma ContentsOverlaid(m: seq<Byte>, at: nat, bs: seq<Byte>)
    requires at + ENCLAVE_SIZE <= |m| && |bs| <= ENCLAVE_SIZE
    ensures Contents(at, Overlay(m, at, bs)) == Overlay(Contents(at, m), 0, bs)
  {
  }

  /** After every run the enclave holds what the accepted messages left in it. */
  lemma {:induction false} RunHoldsHistory(at: nat, avx512: bool, m: seq<Byte>, ops: seq<Op>)
    requires at + ENCLAVE_SIZE <= |m|
    ensures HoldsHistory(at, Run(at, avx512, m, ops))
  {
    if ops == [] {
      OverlayRead(m, at, Zeros(ENCLAVE_SIZE), at, ENCLAVE_SIZE);
    } else {
      RunHoldsHistory(at, avx512, m, ops[..|ops| - 1]);
      StepKeepsHistory(at, avx512, Run(at, avx512, m, ops[..|ops| - 1]), ops[|ops| - 1]);
    }
  }

  /** So after every run, receiving n bytes yields the first n of what the messages left. */
  lemma ReceiveYields(at: nat, avx512: bool, m: seq<Byte>, ops: seq<Op>, dest: nat, n: nat)
    requires at + ENCLAVE_SIZE <= |m| && Proper(at, avx512, |m|, Receive(dest, n))
    ensures var w := Run(at, avx512, m, ops);
            ReceiveEffect(w.mem, at, dest, n)[dest..dest + n] == AfterSends(w.msgs)[..n]
  {
    RunHoldsHistory(at, avx512, m, ops);
    ReceiveKeepsContents(Run(at, avx512, m, ops).mem, at, dest, n);
  }

  /** That is, for each k below n, the byte that the latest message longer than k has k places
      before its end, or 0 if there was none. */
  lemma ReceivedByte(at: nat, avx512: bool, m: seq<Byte>, ops: seq<Op>, dest: nat, n: nat, k: nat)
    requires at + ENCLAVE_SIZE <= |m| && Proper(at, avx512, |m|, Receive(dest, n)) && k < n
    ensures var w := Run(at, avx512, m, ops);
            LeftAt(w.msgs, k, ReceiveEffect(w.mem, at, dest, n)[dest + k])
  {
    ReceiveYields(at, avx512, m, ops, dest, n);
    var w := Run(at, avx512, m, ops);
    ContentsAreHistory(w.msgs, k);
    assert ReceiveEffect(w.mem, at, dest, n)[dest..dest + n][k] == AfterSends(w.msgs)[..n][k];
  }

  /** One message sent and received arrives reversed. */
  lemma EchoReverses(m: seq<Byte>, at: nat, src: nat, dest: nat, n: nat, avx512: bool)
    requires at + ENCLAVE_SIZE <= |m| && n <= ENCLAVE_SIZE && src + n <= |m| && dest + n <= |m|
    requires ForwardSafe(at, src, n) && Apart(at, dest, n)
    ensures ReceiveEffect(SendEffect(m, at, src, n, avx512), at, dest, n)[dest..dest + n] == Reversed(m[src..src + n])
  {
    var m1 := SendEffect(m, at, src, n, avx512);
    SendStoresReversal(m, at, src, n, avx512);
    OverlayRead(m, at, Reversed(m[src..src + n]), at, n);
    ReceiveCopiesPrefix(m1, at, dest, n);
    OverlayRead(m1, dest, m1[at..at + n], dest, n);
  }

  /** Sent and received twice, the message itself arrives. */
  lemma EchoTwiceRestoresMessage(m: seq<Byte>, at: nat, src: nat, dest: nat, dest': nat, n: nat, avx512: bool)
    requires at + ENCLAVE_SIZE <= |m| && n <= ENCLAVE_SIZE
    requires src + n <= |m| && dest + n <= |m| && dest' + n <= |m|
    requires ForwardSafe(at, src, n) && Apart(at, dest, n) && Apart(at, dest', n)
    ensures var once := ReceiveEffect(SendEffect(m, at, src, n, avx512), at, dest, n);
            ReceiveEffect(SendEffect(once, at, dest, n, avx512), at, dest', n)[dest'..dest' + n] == m[src..src + n]
  {
    EchoReverses(m, at, src, dest, n, avx512);
    var once := ReceiveEffect(SendEffect(m, at, src, n, avx512), at, dest, n);
    EchoReverses(once, at, dest, dest', n, avx512);
    ReversedTwice(m[src..src + n]);
  }
}
