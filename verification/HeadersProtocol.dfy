// Headers sync (src/headerssync.cpp) told with the full histories of both phases: the headers accepted
// in PRESYNC, the headers accepted in REDOWNLOAD, and how many of the latter have been released.
// Hashes, the salted commitment bit, the difficulty rule and the work of a header are parameters.
module HeadersProtocol {

  const HEADER_COMMITMENT_PERIOD := 624
  const REDOWNLOAD_BUFFER_SIZE := 14827
  const TWO_256 := 0x1_0000000000000000_0000000000000000_0000000000000000_0000000000000000

  datatype Header = Header(version: int, prev: nat, merkleRoot: nat, time: nat, bits: nat, nonce: nat)

  datatype Config = Config(
    hash: Header -> nat, salted: nat -> bool, permitted: (nat, nat, nat) -> bool, proof: nat -> nat,
    start: Header, startHeight: nat, startWork: nat, minimumWork: nat, commitOffset: nat, maxCommitments: nat)

  datatype Phase = Presync | Redownload | Final

  /** p: accepted in PRESYNC; r: accepted in REDOWNLOAD; n: released. */
  datatype History = History(phase: Phase, p: seq<Header>, r: seq<Header>, n: nat)

  datatype Message = Message(headers: seq<Header>, full: bool)

  datatype Result = Result(success: bool, requestMore: bool, validated: seq<Header>)

  // ---------------------------------------------------------------- chains of headers on top of the start

  function Last(k: Config, hs: seq<Header>): Header {
    if hs == [] then k.start else hs[|hs| - 1]
  }

  /** Work is a 256-bit number and wraps around. */
  function Work(k: Config, hs: seq<Header>): nat {
    if hs == [] then k.startWork
    else (Work(k, hs[..|hs| - 1]) + k.proof(hs[|hs| - 1].bits)) % TWO_256
  }

  /** Some non-empty part of the chain, taken from its start, has the work asked for. */
  function Reached(k: Config, hs: seq<Header>): bool {
    hs != [] && (Reached(k, hs[..|hs| - 1]) || Work(k, hs) >= k.minimumWork)
  }

  predicate LinkedAt(k: Config, hs: seq<Header>, i: nat)
    requires i < |hs|
  {
    hs[i].prev == k.hash(Last(k, hs[..i]))
  }

  ghost predicate Chained(k: Config, hs: seq<Header>) {
    forall i :: 0 <= i < |hs| ==> LinkedAt(k, hs, i)
  }

  predicate PermittedAt(k: Config, hs: seq<Header>, i: nat)
    requires i < |hs|
  {
    k.permitted(k.startHeight + i + 1, Last(k, hs[..i]).bits, hs[i].bits)
  }

  /** The difficulty of every header is a permitted change from that of its predecessor. */
  ghost predicate Permitted(k: Config, hs: seq<Header>) {
    forall i :: 0 <= i < |hs| ==> PermittedAt(k, hs, i)
  }

  /** Whether there is a commitment to the n-th header above the start, counted from 1. */
  predicate Committed(k: Config, n: nat) {
    (k.startHeight + n) % HEADER_COMMITMENT_PERIOD == k.commitOffset
  }

  function Bit(k: Config, h: Header): bool { k.salted(k.hash(h)) }

  function Commitments(k: Config, hs: seq<Header>): seq<bool> {
    if hs == [] then []
    else Commitments(k, hs[..|hs| - 1]) + if Committed(k, |hs|) then [Bit(k, hs[|hs| - 1])] else []
  }

  /** How many of the first n headers there is a commitment to, whatever these headers are. */
  function CommitCount(k: Config, n: nat): nat {
    if n == 0 then 0 else CommitCount(k, n - 1) + if Committed(k, n) then 1 else 0
  }

  lemma {:induction false} CountIsLength(k: Config, hs: seq<Header>)
    ensures |Commitments(k, hs)| == CommitCount(k, |hs|)
  {
    if hs != [] { CountIsLength(k, hs[..|hs| - 1]); }
  }

  lemma {:induction false} CountGrows(k: Config, m: nat, n: nat)
    requires m <= n
    ensures CommitCount(k, m) <= CommitCount(k, n)
  {
    if m < n { CountGrows(k, m, n - 1); }
  }

  /** The commitment to the header at position i stands at a place that depends on its height only. */
  lemma {:induction false} CommitmentAt(k: Config, hs: seq<Header>, i: nat)
    requires i < |hs| && Committed(k, i + 1)
    ensures CommitCount(k, i) < |Commitments(k, hs)| && Commitments(k, hs)[CommitCount(k, i)] == Bit(k, hs[i])
  {
    hide Committed;
    var rest := hs[..|hs| - 1];
    CountIsLength(k, rest);
    if i < |rest| {
      CommitmentAt(k, rest, i);
    }
  }

  // ---------------------------------------------------------------- acceptance of headers

  predicate PresyncOk(k: Config, p: seq<Header>, h: Header) {
    && k.permitted(k.startHeight + |p| + 1, Last(k, p).bits, h.bits)
    && (Committed(k, |p| + 1) ==> CommitCount(k, |p|) < k.maxCommitments)
  }

  predicate PresyncAll(k: Config, p: seq<Header>, hs: seq<Header>)
    decreases |hs|
  {
    hs == [] || (PresyncOk(k, p, hs[0]) && PresyncAll(k, p + [hs[0]], hs[1..]))
  }

  /** A redownloaded header must connect, and agree with the header seen before at the same height if that was committed to. */
  predicate RedownloadOk(k: Config, p: seq<Header>, r: seq<Header>, h: Header) {
    && h.prev == k.hash(Last(k, r))
    && k.permitted(k.startHeight + |r| + 1, Last(k, r).bits, h.bits)
    && (Reached(k, r + [h]) || !Committed(k, |r| + 1) || (|r| < |p| && Bit(k, h) == Bit(k, p[|r|])))
  }

  predicate RedownloadAll(k: Config, p: seq<Header>, r: seq<Header>, hs: seq<Header>)
    decreases |hs|
  {
    hs == [] || (RedownloadOk(k, p, r, hs[0]) && RedownloadAll(k, p, r + [hs[0]], hs[1..]))
  }

  // ---------------------------------------------------------------- one message

  function Max(a: int, b: int): int { if a < b then b else a }

  /** How many of the redownloaded headers may be released. */
  function Ready(k: Config, r: seq<Header>, n: nat): nat {
    if Reached(k, r) then |r| else Max(n, |r| - REDOWNLOAD_BUFFER_SIZE)
  }

  function Step(k: Config, s: History, m: Message): (History, Result)
    requires s.n <= |s.r|
  {
    if m.headers == [] || s.phase == Final then (s, Result(false, false, []))
    else if s.phase == Presync then StepPresync(k, s, m) else StepRedownload(k, s, m)
  }

  function StepPresync(k: Config, s: History, m: Message): (History, Result)
    requires m.headers != []
  {
    if m.headers[0].prev != k.hash(Last(k, s.p)) || !PresyncAll(k, s.p, m.headers) then
      (s.(phase := Final), Result(false, false, []))
    else
      var p := s.p + m.headers;
      if Work(k, p) >= k.minimumWork then (History(Redownload, p, [], 0), Result(true, true, []))
      else (s.(phase := if m.full then Presync else Final, p := p), Result(true, m.full, []))
  }

  function StepRedownload(k: Config, s: History, m: Message): (History, Result)
    requires s.n <= |s.r|
  {
    if !RedownloadAll(k, s.p, s.r, m.headers) then
      (s.(phase := Final), Result(false, false, []))
    else
      var r := s.r + m.headers;
      var n := Ready(k, r, s.n);
      var more := !Reached(k, r) && m.full;
      (History(if more then Redownload else Final, s.p, r, n), Result(true, more, r[s.n..n]))
  }

  // ---------------------------------------------------------------- what every step keeps

  /** Headers that were committed to agree with those seen before, as long as the work asked for is not reached. */
  ghost predicate Matched(k: Config, p: seq<Header>, r: seq<Header>) {
    forall i :: 0 <= i < |r| ==> MatchedAt(k, p, r, i)
  }

  predicate MatchedAt(k: Config, p: seq<Header>, r: seq<Header>, i: nat)
    requires i < |r|
  {
    Committed(k, i + 1) && !Reached(k, r[..i + 1]) ==> i < |p| && Bit(k, r[i]) == Bit(k, p[i])
  }

  ghost predicate Inv(k: Config, s: History) {
    && s.n <= |s.r| && Chained(k, s.r) && Matched(k, s.p, s.r) && Permitted(k, s.r) && Permitted(k, s.p)
    && CommitCount(k, |s.p|) <= k.maxCommitments
    && (s.n > 0 ==> Reached(k, s.r) || |s.r| - s.n >= REDOWNLOAD_BUFFER_SIZE)
    && (s.phase == Presync ==> s.r == [])
    && (s.phase == Redownload ==> !Reached(k, s.r) && |s.r| - s.n <= REDOWNLOAD_BUFFER_SIZE && Work(k, s.p) >= k.minimumWork)
  }

  lemma PermittedMore(k: Config, hs: seq<Header>, h: Header)
    ensures Permitted(k, hs + [h]) <==> Permitted(k, hs) && k.permitted(k.startHeight + |hs| + 1, Last(k, hs).bits, h.bits)
  {
    var hs' := hs + [h];
    assert hs'[..|hs|] == hs;
    forall i | 0 <= i < |hs| ensures PermittedAt(k, hs', i) == PermittedAt(k, hs, i) { assert hs'[..i] == hs[..i]; }
    if Permitted(k, hs') { assert PermittedAt(k, hs', |hs|); }
  }

  lemma ChainedMore(k: Config, hs: seq<Header>, h: Header)
    ensures Chained(k, hs + [h]) <==> Chained(k, hs) && h.prev == k.hash(Last(k, hs))
  {
    var hs' := hs + [h];
    assert hs'[..|hs|] == hs;
    forall i | 0 <= i < |hs| ensures LinkedAt(k, hs', i) == LinkedAt(k, hs, i) { assert hs'[..i] == hs[..i]; }
    if Chained(k, hs') { assert LinkedAt(k, hs', |hs|); }
  }

  lemma MatchedMore(k: Config, p: seq<Header>, r: seq<Header>, h: Header)
    ensures Matched(k, p, r + [h]) <==>
              Matched(k, p, r) && (Reached(k, r + [h]) || !Committed(k, |r| + 1) || (|r| < |p| && Bit(k, h) == Bit(k, p[|r|])))
  {
    hide Reached, Committed;
    var r' := r + [h];
    assert r'[..|r| + 1] == r';
    forall i | 0 <= i < |r| ensures MatchedAt(k, p, r', i) == MatchedAt(k, p, r, i) { assert r'[..i + 1] == r[..i + 1]; }
    if Matched(k, p, r') { assert MatchedAt(k, p, r', |r|); }
  }

  /** PRESYNC accepts exactly headers with permitted difficulties that do not lead to too many commitments. */
  lemma {:induction false} PresyncIs(k: Config, p: seq<Header>, hs: seq<Header>)
    requires Permitted(k, p) && CommitCount(k, |p|) <= k.maxCommitments
    ensures PresyncAll(k, p, hs) <==> Permitted(k, p + hs) && CommitCount(k, |p + hs|) <= k.maxCommitments
    decreases |hs|
  {
    hide Permitted, Committed;
    if hs == [] {
      assert p + hs == p;
    } else {
      var p' := p + [hs[0]];
      assert p' + hs[1..] == p + hs;
      PermittedMore(k, p, hs[0]);
      CountGrows(k, |p'|, |p + hs|);
      PermittedPart(k, p', hs[1..]);
      if PresyncOk(k, p, hs[0]) { PresyncIs(k, p', hs[1..]); }
    }
  }

  lemma PermittedPart(k: Config, p: seq<Header>, hs: seq<Header>)
    ensures Permitted(k, p + hs) ==> Permitted(k, p)
  {
    forall i | 0 <= i < |p| ensures PermittedAt(k, p + hs, i) == PermittedAt(k, p, i) { assert (p + hs)[..i] == p[..i]; }
  }

  /** What REDOWNLOAD accepts. */
  ghost predicate Acceptable(k: Config, p: seq<Header>, r: seq<Header>) {
    Chained(k, r) && Permitted(k, r) && Matched(k, p, r)
  }

  lemma AcceptOne(k: Config, p: seq<Header>, r: seq<Header>, h: Header)
    ensures Acceptable(k, p, r + [h]) <==> Acceptable(k, p, r) && RedownloadOk(k, p, r, h)
  {
    hide Chained, Permitted, Matched, Reached, Committed;
    ChainedMore(k, r, h);
    PermittedMore(k, r, h);
    MatchedMore(k, p, r, h);
  }

  /** It accepts exactly headers that continue the chain, with permitted difficulties, and agree with the commitments. */
  lemma {:induction false} AcceptAll(k: Config, p: seq<Header>, r: seq<Header>, hs: seq<Header>)
    requires Acceptable(k, p, r)
    ensures RedownloadAll(k, p, r, hs) <==> Acceptable(k, p, r + hs)
    decreases |hs|
  {
    hide Acceptable, RedownloadOk;
    if hs == [] {
      assert r + hs == r;
    } else {
      var r' := r + [hs[0]];
      assert r' + hs[1..] == r + hs;
      AcceptOne(k, p, r, hs[0]);
      AcceptablePart(k, p, r', hs[1..]);
      if RedownloadOk(k, p, r, hs[0]) { AcceptAll(k, p, r', hs[1..]); }
    }
  }

  lemma {:induction false} AcceptablePart(k: Config, p: seq<Header>, r: seq<Header>, hs: seq<Header>)
    ensures Acceptable(k, p, r + hs) ==> Acceptable(k, p, r)
    decreases |hs|
  {
    hide Acceptable, RedownloadOk;
    if hs == [] {
      assert r + hs == r;
    } else {
      var n := |hs| - 1;
      assert r + hs == r + hs[..n] + [hs[n]];
      AcceptOne(k, p, r + hs[..n], hs[n]);
      AcceptablePart(k, p, r, hs[..n]);
    }
  }

  lemma StepInv(k: Config, s: History, m: Message)
    requires Inv(k, s)
    ensures Inv(k, Step(k, s, m).0)
  {
    hide Chained, Matched, Permitted, Reached, Work, CommitCount;
    if m.headers != [] && s.phase == Presync && PresyncAll(k, s.p, m.headers) {
      PresyncIs(k, s.p, m.headers);
      NothingYet(k, s.p + m.headers);
    } else if s.phase == Redownload && RedownloadAll(k, s.p, s.r, m.headers) {
      AcceptAll(k, s.p, s.r, m.headers);
    }
  }

  lemma NothingYet(k: Config, p: seq<Header>)
    ensures Chained(k, []) && Matched(k, p, []) && Permitted(k, []) && !Reached(k, [])
  {}

  /**
   * A message succeeds exactly if what it makes of the headers seen so far is acceptable as a whole. In particular a
   * single header whose difficulty is not a permitted change makes it fail, in both phases.
   */
  lemma StepSucceeds(k: Config, s: History, m: Message)
    requires Inv(k, s)
    ensures m.headers == [] || s.phase == Final ==> !Step(k, s, m).1.success
    ensures m.headers != [] && s.phase == Presync ==>
              (Step(k, s, m).1.success <==> && m.headers[0].prev == k.hash(Last(k, s.p)) && Permitted(k, s.p + m.headers)
                                            && CommitCount(k, |s.p + m.headers|) <= k.maxCommitments)
    ensures m.headers != [] && s.phase == Redownload ==>
              (Step(k, s, m).1.success <==> && Chained(k, s.r + m.headers) && Permitted(k, s.r + m.headers)
                                            && Matched(k, s.p, s.r + m.headers))
    ensures !Step(k, s, m).1.success ==> Step(k, s, m).0 == s.(phase := if m.headers == [] then s.phase else Final) && Step(k, s, m).1.validated == []
  {
    hide Chained, Matched, Permitted, Reached, Work, CommitCount;
    PresyncIs(k, s.p, m.headers);
    AcceptAll(k, s.p, s.r, m.headers);
  }

  ghost predicate MayRelease(k: Config, r: seq<Header>, i: nat) {
    Reached(k, r) || |r| - 1 - i >= REDOWNLOAD_BUFFER_SIZE
  }

  /** A step releases what comes next in the redownloaded chain, and only headers with the work or the buffer above them. */
  lemma StepReleases(k: Config, s: History, m: Message)
    requires Inv(k, s)
    ensures var (s', res) := Step(k, s, m);
      && s.n <= s'.n <= |s'.r| && s.r[..s.n] + res.validated == s'.r[..s'.n]
      && forall i :: s.n <= i < s'.n ==> MayRelease(k, s'.r, i)
  {
    hide Chained, Matched, Reached, Work, CommitCount;
    var (s', res) := Step(k, s, m);
    if s.phase == Redownload && RedownloadAll(k, s.p, s.r, m.headers) {
      assert s'.r[..s.n] == s.r[..s.n];
      assert s'.r[..s.n] + s'.r[s.n..s'.n] == s'.r[..s'.n];
    } else {
      assert s'.r[..s'.n] == s.r[..s.n];
    }
  }

  // ---------------------------------------------------------------- whole runs

  const BEGIN := History(Presync, [], [], 0)

  ghost function Run(k: Config, ms: seq<Message>): (s: History)
    ensures Inv(k, s)
  {
    if ms == [] then
      NothingYet(k, []);
      BEGIN
    else
      var s := Run(k, ms[..|ms| - 1]);
      StepInv(k, s, ms[|ms| - 1]);
      Step(k, s, ms[|ms| - 1]).0
  }

  /** Everything released in a run, in the order in which it was released. */
  ghost function Released(k: Config, ms: seq<Message>): seq<Header> {
    if ms == [] then []
    else Released(k, ms[..|ms| - 1]) + Step(k, Run(k, ms[..|ms| - 1]), ms[|ms| - 1]).1.validated
  }

  /**
   * In every run the released headers are a prefix of the accepted redownloaded headers, form one chain from the
   * start with permitted difficulties, agree with the commitments made in PRESYNC, and were only released with the work reached or a full buffer of accepted headers above the last one.
   */
  lemma {:induction false} ReleasedChain(k: Config, ms: seq<Message>)
    ensures Released(k, ms) <= Run(k, ms).r && |Released(k, ms)| == Run(k, ms).n
    ensures Acceptable(k, Run(k, ms).p, Released(k, ms))
    ensures Released(k, ms) != [] ==> Reached(k, Run(k, ms).r) || |Run(k, ms).r| - |Released(k, ms)| >= REDOWNLOAD_BUFFER_SIZE
  {
    hide Matched, Chained, Permitted, Reached, Work, CommitCount, Step;
    var s := Run(k, ms);
    if ms != [] {
      ReleasedChain(k, ms[..|ms| - 1]);
      StepReleases(k, Run(k, ms[..|ms| - 1]), ms[|ms| - 1]);
      var t := Run(k, ms[..|ms| - 1]);
      assert Released(k, ms[..|ms| - 1]) == t.r[..t.n];
    }
    assert Released(k, ms) == s.r[..s.n];
    assert s.r[..s.n] + s.r[s.n..] == s.r;
    AcceptablePart(k, s.p, s.r[..s.n], s.r[s.n..]);
  }

  // ---------------------------------------------------------------- an honest peer

  /** Headers that a peer may serve: connected, with permitted difficulties, not too many, and without wrap-around of work. */
  ghost predicate Honest(k: Config, hs: seq<Header>) {
    && Chained(k, hs)
    && Permitted(k, hs)
    && CommitCount(k, |hs|) <= k.maxCommitments
    && forall i :: 0 <= i < |hs| ==> Work(k, hs[..i]) + k.proof(hs[i].bits) < TWO_256
  }

  lemma WorkStep(k: Config, hs: seq<Header>, j: nat)
    requires Honest(k, hs) && j < |hs|
    ensures Work(k, hs[..j + 1]) == Work(k, hs[..j]) + k.proof(hs[j].bits)
  {
    hide Chained, CommitCount;
    assert hs[..j + 1][..j] == hs[..j] && hs[..j + 1][j] == hs[j];
  }

  lemma {:induction false} WorkGrows(k: Config, hs: seq<Header>, i: nat, j: nat)
    requires Honest(k, hs) && i <= j <= |hs|
    ensures Work(k, hs[..i]) <= Work(k, hs[..j])
  {
    hide Honest, Work;
    if i < j {
      WorkGrows(k, hs, i, j - 1);
      WorkStep(k, hs, j - 1);
    }
  }

  /** Without wrap-around the work is reached as soon as the chain has it. */
  lemma {:induction false} ReachedIsWork(k: Config, hs: seq<Header>, i: nat)
    requires Honest(k, hs) && i <= |hs|
    ensures Reached(k, hs[..i]) <==> i > 0 && Work(k, hs[..i]) >= k.minimumWork
  {
    hide Honest;
    if i > 0 {
      ReachedIsWork(k, hs, i - 1);
      WorkGrows(k, hs, i - 1, i);
      assert hs[..i][..i - 1] == hs[..i - 1];
    }
  }

  lemma {:induction false} HonestPresync(k: Config, hs: seq<Header>, a: nat, b: nat)
    requires Honest(k, hs) && a <= b <= |hs|
    ensures PresyncAll(k, hs[..a], hs[a..b])
    decreases b - a
  {
    hide Honest, PresyncOk;
    if a < b {
      assert hs[a..b][0] == hs[a] && hs[a..b][1..] == hs[a + 1..b] && hs[..a] + [hs[a]] == hs[..a + 1];
      HonestPresyncOne(k, hs, a);
      HonestPresync(k, hs, a + 1, b);
    }
  }

  lemma HonestPresyncOne(k: Config, hs: seq<Header>, a: nat)
    requires Honest(k, hs) && a < |hs|
    ensures PresyncOk(k, hs[..a], hs[a])
  {
    hide Chained, Work, CommitCount, Committed;
    assert PermittedAt(k, hs, a);
    if Committed(k, a + 1) { HonestCount(k, hs, a); }
  }

  lemma HonestCount(k: Config, hs: seq<Header>, a: nat)
    requires Honest(k, hs) && a < |hs| && Committed(k, a + 1)
    ensures CommitCount(k, a) < k.maxCommitments
  {
    CountGrows(k, a + 1, |hs|);
  }

  /** What was committed to lies within the part seen in PRESYNC as long as the work is not reached. */
  lemma HonestRedownloadOne(k: Config, hs: seq<Header>, seen: nat, b: nat)
    requires Honest(k, hs) && seen <= |hs| && Work(k, hs[..seen]) >= k.minimumWork && b < |hs|
    ensures RedownloadOk(k, hs[..seen], hs[..b], hs[b])
  {
    hide Work, CommitCount, Reached, Committed;
    assert hs[..b] + [hs[b]] == hs[..b + 1];
    assert PermittedAt(k, hs, b) && LinkedAt(k, hs, b);
    ReachedIsWork(k, hs, b + 1);
    if seen <= b { WorkGrows(k, hs, seen, b + 1); }
  }

  lemma {:induction false} HonestRedownload(k: Config, hs: seq<Header>, seen: nat, a: nat, b: nat)
    requires Honest(k, hs) && seen <= |hs| && Work(k, hs[..seen]) >= k.minimumWork && a <= b <= |hs|
    ensures RedownloadAll(k, hs[..seen], hs[..a], hs[a..b])
    decreases b - a
  {
    hide Honest, Work, CommitCount, Reached, RedownloadOk;
    if a < b {
      assert hs[a..b][0] == hs[a] && hs[a..b][1..] == hs[a + 1..b] && hs[..a] + [hs[a]] == hs[..a + 1];
      HonestRedownloadOne(k, hs, seen, a);
      HonestRedownload(k, hs, seen, a + 1, b);
    }
  }

  /** The peer serves hs from wherever it was asked to go on, in full messages. */
  ghost predicate Replays(k: Config, hs: seq<Header>, ms: seq<Message>) {
    forall i :: 0 <= i < |ms| ==> Serves(hs, Run(k, ms[..i]), ms[i])
  }

  ghost predicate Serves(hs: seq<Header>, s: History, m: Message) {
    && m.full && m.headers != []
    && (s.phase == Presync ==> s.p + m.headers <= hs)
    && (s.phase == Redownload ==> s.r + m.headers <= hs)
  }

  /** Both phases have seen a part of hs, and the sync only ends with the work reached and everything released. */
  ghost predicate HonestState(k: Config, hs: seq<Header>, s: History, count: nat) {
    && s.p <= hs && s.r <= hs
    && (s.phase == Final ==> Reached(k, s.r) && s.n == |s.r|)
    && (s.phase != Final ==> count <= |s.p| + |s.r|)
    && (s.phase == Presync && s.p != [] ==> Work(k, s.p) < k.minimumWork)
  }

  lemma HonestStep(k: Config, hs: seq<Header>, s: History, m: Message, count: nat)
    requires Honest(k, hs) && Inv(k, s) && Serves(hs, s, m) && HonestState(k, hs, s, count)
    ensures HonestState(k, hs, Step(k, s, m).0, count + 1)
    ensures s.phase != Final ==> Step(k, s, m).1.success
  {
    hide Honest, Matched, Reached, Work, CommitCount, Chained, RedownloadAll, PresyncAll;
    if s.phase == Presync {
      var a, b := |s.p|, |s.p| + |m.headers|;
      assert s.p == hs[..a] && s.p + m.headers == hs[..b];
      assert m.headers == (s.p + m.headers)[a..] == hs[a..b];
      HonestPresync(k, hs, a, b);
      HonestLink(k, hs, a);
    } else if s.phase == Redownload {
      var a, b := |s.r|, |s.r| + |m.headers|;
      assert s.r == hs[..a] && s.r + m.headers == hs[..b];
      assert m.headers == (s.r + m.headers)[a..] == hs[a..b];
      assert s.p == hs[..|s.p|];
      HonestRedownload(k, hs, |s.p|, a, b);
    }
  }

  lemma {:induction false} HonestRun(k: Config, hs: seq<Header>, ms: seq<Message>)
    requires Honest(k, hs) && Replays(k, hs, ms)
    ensures HonestState(k, hs, Run(k, ms), |ms|)
  {
    hide Honest, Inv, Step, Serves, Reached, Work;
    if ms == [] {
      NothingYet(k, []);
    } else {
      var init, m := ms[..|ms| - 1], ms[|ms| - 1];
      assert forall i :: 0 <= i < |init| ==> init[..i] == ms[..i];
      HonestRun(k, hs, init);
      assert Serves(hs, Run(k, ms[..|ms| - 1]), ms[|ms| - 1]);
      HonestStep(k, hs, Run(k, init), m, |init|);
    }
  }

  /** A peer that serves the same chain twice is never rejected. */
  lemma HonestNeverRejected(k: Config, hs: seq<Header>, ms: seq<Message>, m: Message)
    requires Honest(k, hs) && Replays(k, hs, ms) && Serves(hs, Run(k, ms), m) && Run(k, ms).phase != Final
    ensures Step(k, Run(k, ms), m).1.success
  {
    hide Honest, Inv, Step, Serves, Reached, Work, Run, HonestState;
    HonestRun(k, hs, ms);
    HonestStep(k, hs, Run(k, ms), m, |ms|);
  }

  /** If its chain has the work, it can always go on, and after finitely many messages all of the chain that was received is released. */
  lemma HonestCompletes(k: Config, hs: seq<Header>, ms: seq<Message>)
    requires Honest(k, hs) && Replays(k, hs, ms) && hs != [] && Work(k, hs) >= k.minimumWork
    ensures var s := Run(k, ms);
      && (s.phase == Presync ==> |s.p| < |hs|) && (s.phase == Redownload ==> |s.r| < |hs|)
      && (|ms| >= 2 * |hs| ==> s.phase == Final)
      && (s.phase == Final ==> Released(k, ms) == s.r && s.r <= hs && Reached(k, s.r))
  {
    hide Honest, Step, Replays, Chained, Matched, CommitCount, Work, Released, Reached, Run;
    var s := Run(k, ms);
    HonestRun(k, hs, ms);
    ReleasedChain(k, ms);
    assert hs[..|hs|] == hs;
    ReachedIsWork(k, hs, |hs|);
    assert |s.p| == |hs| ==> s.p == hs;
    assert |s.r| == |hs| ==> s.r == hs;
  }

  lemma HonestLink(k: Config, hs: seq<Header>, a: nat)
    requires Honest(k, hs) && a < |hs|
    ensures hs[a].prev == k.hash(Last(k, hs[..a]))
  {
    assert LinkedAt(k, hs, a);
  }
}
