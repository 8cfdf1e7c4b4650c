// HeadersSyncState (src/headerssync.h, src/headerssync.cpp): it keeps only one bit per commitment period of the
// first download and a buffer of headers without their previous hash of the second. It is proved to do what
// HeadersProtocol.Step does on the full histories.
module HeadersSync {
  import opened HeadersProtocol

  datatype Compressed = Compressed(version: int, merkleRoot: nat, time: nat, bits: nat, nonce: nat) {
    function GetFullHeader(prev: nat): Header { Header(version, prev, merkleRoot, time, bits, nonce) }
  }

  function Compress(h: Header): Compressed { Compressed(h.version, h.merkleRoot, h.time, h.bits, h.nonce) }

  ghost function CompressAll(hs: seq<Header>): seq<Compressed> { seq(|hs|, i requires 0 <= i < |hs| => Compress(hs[i])) }

  const NULL_HEADER := Header(0, 0, 0, 0, 0, 0)

  class HeadersSyncState {
    const config: Config

    var downloadState: Phase
    var currentChainWork: nat
    var headerCommitments: seq<bool>
    var lastHeaderReceived: Header
    var currentHeight: nat
    var redownloadedHeaders: seq<Compressed>
    var bufferLastHeight: nat
    var bufferLastHash: nat
    var bufferFirstPrevHash: nat
    var redownloadChainWork: nat
    var processAllRemaining: bool

    ghost var history: History

    ghost predicate PresyncRep(p: seq<Header>)
      reads this
    {
      && currentChainWork == Work(config, p) && lastHeaderReceived == Last(config, p)
      && currentHeight == config.startHeight + |p| && headerCommitments == Commitments(config, p)
      && redownloadedHeaders == [] && !processAllRemaining
    }

    ghost predicate RedownloadRep(p: seq<Header>, r: seq<Header>, n: nat)
      reads this
    {
      && n <= |r| && redownloadedHeaders == CompressAll(r[n..])
      && bufferLastHeight == config.startHeight + |r| && bufferLastHash == config.hash(Last(config, r))
      && bufferFirstPrevHash == config.hash(Last(config, r[..n]))
      && redownloadChainWork == Work(config, r) && processAllRemaining == Reached(config, r)
      && (!processAllRemaining ==> Unchecked(p, |r|))
    }

    /** The commitments that are left are those to headers above the first n. */
    ghost predicate Unchecked(p: seq<Header>, n: nat)
      reads this
    {
      CommitCount(config, n) <= |Commitments(config, p)| && headerCommitments == Commitments(config, p)[CommitCount(config, n)..]
    }

    ghost predicate Valid()
      reads this
    {
      && Inv(config, history) && downloadState == history.phase
      && (downloadState == Presync ==> PresyncRep(history.p))
      && (downloadState == Redownload ==> RedownloadRep(history.p, history.r, history.n) && (history.n == |history.r| ==> history.r == []))
      && (downloadState == Final ==> headerCommitments == [] && redownloadedHeaders == [])
    }

    constructor (config: Config)
      ensures Valid() && history == BEGIN && this.config == config
    {
      this.config := config;
      downloadState := Presync;
      currentChainWork := config.startWork;
      headerCommitments := [];
      lastHeaderReceived := config.start;
      currentHeight := config.startHeight;
      redownloadedHeaders := [];
      bufferLastHeight := 0;
      bufferLastHash := 0;
      bufferFirstPrevHash := 0;
      redownloadChainWork := 0;
      processAllRemaining := false;
      history := BEGIN;
      new;
      NothingYet(config, []);
    }

    /** Frees what is stored. */
    method Finalize()
      modifies this
      ensures downloadState == Final && headerCommitments == [] && redownloadedHeaders == [] && history == old(history)
    {
      headerCommitments := [];
      lastHeaderReceived := NULL_HEADER;
      redownloadedHeaders := [];
      bufferLastHash := 0;
      bufferFirstPrevHash := 0;
      processAllRemaining := false;
      currentHeight := 0;
      downloadState := Final;
    }

    /** Checks one header of the first download and stores a commitment to it if one is due. */
    method ValidateAndProcessSingleHeader(current: Header, ghost p: seq<Header>) returns (ok: bool)
      requires downloadState == Presync && PresyncRep(p)
      modifies this
      ensures history == old(history) && downloadState == Presync
      ensures ok <==> PresyncOk(config, p, current)
      ensures ok ==> PresyncRep(p + [current])
    {
      hide CommitCount;
      var nextHeight := currentHeight + 1;
      if !config.permitted(nextHeight, lastHeaderReceived.bits, current.bits) {
        return false;
      }
      CountIsLength(config, p);
      assert (p + [current])[..|p|] == p;
      if nextHeight % HEADER_COMMITMENT_PERIOD == config.commitOffset {
        headerCommitments := headerCommitments + [config.salted(config.hash(current))];
        if |headerCommitments| > config.maxCommitments {
          return false;
        }
      }
      currentChainWork := (currentChainWork + config.proof(current.bits)) % TWO_256;
      lastHeaderReceived := current;
      currentHeight := nextHeight;
      ok := true;
    }

    method ValidateAndStoreHeadersCommitments(headers: seq<Header>) returns (ok: bool)
      requires Valid() && downloadState == Presync && headers != []
      modifies this
      ensures history == old(history)
      ensures ok <==> headers[0].prev == config.hash(Last(config, history.p)) && PresyncAll(config, history.p, headers)
      ensures ok ==> var p := history.p + headers;
                (if Work(config, p) >= config.minimumWork then downloadState == Redownload && RedownloadRep(p, [], 0)
                 else downloadState == Presync && PresyncRep(p))
    {
      if headers[0].prev != config.hash(lastHeaderReceived) {
        return false;
      }
      ghost var p := history.p;
      var i := 0;
      assert p + headers[..0] == p && headers[0..] == headers;
      while i < |headers|
        invariant 0 <= i <= |headers| && downloadState == Presync && PresyncRep(p + headers[..i]) && history == old(history)
        invariant PresyncAll(config, p, headers) <==> PresyncAll(config, p + headers[..i], headers[i..])
      {
        hide PresyncRep, PresyncOk;
        Advance(p, headers, i);
        ok := ValidateAndProcessSingleHeader(headers[i], p + headers[..i]);
        if !ok {
          return;
        }
        i := i + 1;
      }
      ok := true;
      assert headers[..i] == headers;
      if currentChainWork >= config.minimumWork {
        redownloadedHeaders := [];
        bufferLastHeight := config.startHeight;
        bufferFirstPrevHash := config.hash(config.start);
        bufferLastHash := config.hash(config.start);
        redownloadChainWork := config.startWork;
        downloadState := Redownload;
      }
    }

    /** Checks one header of the second download and stores it, without its previous hash. */
    method ValidateAndStoreRedownloadedHeader(header: Header, ghost p: seq<Header>, ghost r: seq<Header>, ghost n: nat) returns (ok: bool)
      requires downloadState == Redownload && RedownloadRep(p, r, n) && (n == |r| ==> r == [])
      modifies this
      ensures history == old(history) && downloadState == Redownload
      ensures ok <==> RedownloadOk(config, p, r, header)
      ensures Acceptable(config, p, r) ==> (ok <==> Acceptable(config, p, r + [header]))
      ensures ok ==> RedownloadRep(p, r + [header], n)
    {
      hide CommitCount, Commitments, Committed, Work, Reached, CompressAll, Bit, Acceptable;
      AcceptOne(config, p, r, header);
      Extend(config, r, header);
      ExtendBuffer(config, r, n, header);
      var nextHeight := bufferLastHeight + 1;
      if header.prev != bufferLastHash {
        return false;
      }
      var previousBits := if redownloadedHeaders != [] then redownloadedHeaders[|redownloadedHeaders| - 1].bits else config.start.bits;
      if !config.permitted(nextHeight, previousBits, header.bits) {
        return false;
      }
      redownloadChainWork := (redownloadChainWork + config.proof(header.bits)) % TWO_256;
      if redownloadChainWork >= config.minimumWork {
        processAllRemaining := true;
      }
      if !processAllRemaining {
        ok := CheckCommitment(header, nextHeight, p, r);
        if !ok {
          return;
        }
      }
      redownloadedHeaders := redownloadedHeaders + [Compress(header)];
      bufferLastHeight := nextHeight;
      bufferLastHash := config.hash(header);
      ok := true;
    }

    /** Takes the commitment for this height from the queue, if there is one, and compares. */
    method CheckCommitment(header: Header, nextHeight: nat, ghost p: seq<Header>, ghost r: seq<Header>) returns (ok: bool)
      requires nextHeight == config.startHeight + |r| + 1 && Unchecked(p, |r|)
      modifies this`headerCommitments
      ensures ok <==> !Committed(config, |r| + 1) || (|r| < |p| && Bit(config, header) == Bit(config, p[|r|]))
      ensures ok ==> Unchecked(p, |r| + 1)
    {
      hide Commitments;
      if nextHeight % HEADER_COMMITMENT_PERIOD == config.commitOffset {
        NextCommitment(config, p, |r|);
        if headerCommitments == [] {
          return false;
        }
        var expected := headerCommitments[0];
        headerCommitments := headerCommitments[1..];
        if config.salted(config.hash(header)) != expected {
          return false;
        }
      }
      ok := true;
    }

    /** Rebuilds the headers that may be released: all, or all but a full buffer. */
    method PopHeadersReadyForAcceptance(ghost p: seq<Header>, ghost r: seq<Header>, ghost n: nat) returns (ret: seq<Header>)
      requires downloadState == Redownload && RedownloadRep(p, r, n) && Chained(config, r)
      modifies this
      ensures history == old(history) && downloadState == Redownload
      ensures Ready(config, r, n) <= |r| && n <= Ready(config, r, n) && ret == r[n..Ready(config, r, n)]
      ensures RedownloadRep(p, r, Ready(config, r, n))
    {
      hide Reached, Work, CommitCount, Commitments;
      ret := [];
      ghost var i := n;
      while |redownloadedHeaders| > REDOWNLOAD_BUFFER_SIZE || (|redownloadedHeaders| > 0 && processAllRemaining)
        invariant n <= i <= |r| && RedownloadRep(p, r, i) && ret == r[n..i]
        invariant history == old(history) && downloadState == Redownload
        invariant i > n ==> processAllRemaining || |r| - i >= REDOWNLOAD_BUFFER_SIZE
        decreases |redownloadedHeaders|
      {
        assert r[i..][0] == r[i] && r[i..][1..] == r[i + 1..];
        assert LinkedAt(config, r, i);
        ret := ret + [redownloadedHeaders[0].GetFullHeader(bufferFirstPrevHash)];
        redownloadedHeaders := redownloadedHeaders[1..];
        bufferFirstPrevHash := config.hash(ret[|ret| - 1]);
        assert Last(config, r[..i + 1]) == r[i];
        i := i + 1;
      }
    }

    /** One message of the peer. */
    method ProcessNextHeaders(m: Message) returns (res: Result)
      requires Valid()
      modifies this
      ensures Valid() && (history, res) == Step(config, old(history), m)
      ensures m.headers != [] && old(downloadState) == Presync ==>
                (res.success <==> && m.headers[0].prev == config.hash(Last(config, old(history.p))) && Permitted(config, old(history.p) + m.headers)
                                  && CommitCount(config, |old(history.p) + m.headers|) <= config.maxCommitments)
      ensures m.headers != [] && old(downloadState) == Redownload ==>
                (res.success <==> Acceptable(config, old(history.p), old(history.r) + m.headers))
    {
      hide Inv, Permitted, Chained, Matched, PresyncAll, RedownloadAll, Reached, Work, Ready, CommitCount, Commitments;
      res := Result(false, false, []);
      InvParts(config, history);
      if m.headers == [] || downloadState == Final {
        return;
      }
      StepInv(config, history, m);
      StepSucceeds(config, history, m);
      if downloadState == Presync {
        var ok := ValidateAndStoreHeadersCommitments(m.headers);
        res := res.(success := ok);
        if ok && (m.full || downloadState == Redownload) {
          res := res.(requestMore := true);
        }
      } else {
        res := Redownloading(m);
      }
      history := Step(config, history, m).0;
      if !(res.success && res.requestMore) {
        Finalize();
      }
      InvParts(config, history);
    }

    method Redownloading(m: Message) returns (res: Result)
      requires Valid() && downloadState == Redownload && m.headers != []
      modifies this
      ensures history == old(history) && res == StepRedownload(config, history, m).1
      ensures res.requestMore ==> var s := StepRedownload(config, history, m).0;
                downloadState == Redownload && RedownloadRep(s.p, s.r, s.n) && s.n < |s.r|
    {
      hide Inv, RedownloadRep, Reached, Work, RedownloadOk;
      InvParts(config, history);
      ghost var p, r, n := history.p, history.r, history.n;
      res := Result(true, false, []);
      var i := 0;
      assert r + m.headers[..0] == r && m.headers[0..] == m.headers;
      while i < |m.headers|
        invariant 0 <= i <= |m.headers| && downloadState == Redownload && RedownloadRep(p, r + m.headers[..i], n) && history == old(history)
        invariant RedownloadAll(config, p, r, m.headers) <==> RedownloadAll(config, p, r + m.headers[..i], m.headers[i..])
      {
        Advance(r, m.headers, i);
        var ok := ValidateAndStoreRedownloadedHeader(m.headers[i], p, r + m.headers[..i], n);
        if !ok {
          return Result(false, false, []);
        }
        i := i + 1;
      }
      ghost var r' := r + m.headers;
      assert m.headers[..i] == m.headers;
      AcceptAll(config, p, r, m.headers);
      var validated := PopHeadersReadyForAcceptance(p, r', n);
      res := res.(validated := validated);
      RepSize(p, r', Ready(config, r', n));
      if redownloadedHeaders == [] && processAllRemaining {
        // all remaining headers have been returned
      } else if m.full {
        res := res.(requestMore := true);
      }
    }

    /** Between calls the memory in use is bounded. */
    lemma Bounded()
      requires Valid()
      ensures |headerCommitments| <= config.maxCommitments && |redownloadedHeaders| <= REDOWNLOAD_BUFFER_SIZE
    {
      CountIsLength(config, history.p);
    }

    lemma RepSize(p: seq<Header>, r: seq<Header>, n: nat)
      requires RedownloadRep(p, r, n)
      ensures n <= |r| && |redownloadedHeaders| == |r| - n && processAllRemaining == Reached(config, r)
    {}
  }

  lemma InvParts(k: Config, s: History)
    requires Inv(k, s)
    ensures s.n <= |s.r| && Acceptable(k, s.p, s.r) && (s.phase == Presync ==> s.r == [])
    ensures s.phase == Redownload ==> !Reached(k, s.r)
  {}

  lemma Extend(k: Config, r: seq<Header>, h: Header)
    ensures Work(k, r + [h]) == (Work(k, r) + k.proof(h.bits)) % TWO_256
    ensures Reached(k, r + [h]) <==> Reached(k, r) || Work(k, r + [h]) >= k.minimumWork
    ensures Last(k, r + [h]) == h
  {
    assert (r + [h])[..|r|] == r;
  }

  lemma ExtendBuffer(k: Config, r: seq<Header>, n: nat, h: Header)
    requires n <= |r|
    ensures CompressAll((r + [h])[n..]) == CompressAll(r[n..]) + [Compress(h)]
    ensures |CompressAll(r[n..])| == |r| - n && (n < |r| ==> CompressAll(r[n..])[|r| - n - 1].bits == Last(k, r).bits)
    ensures (r + [h])[..n] == r[..n]
  {
    assert (r + [h])[n..] == r[n..] + [h];
  }

  lemma Advance(p: seq<Header>, hs: seq<Header>, i: nat)
    requires i < |hs|
    ensures hs[i..][0] == hs[i] && hs[i..][1..] == hs[i + 1..] && p + hs[..i] + [hs[i]] == p + hs[..i + 1]
  {}

  /** What stands at the head of the queue when the header at position i is due. */
  lemma NextCommitment(k: Config, p: seq<Header>, i: nat)
    requires Committed(k, i + 1) && CommitCount(k, i) <= |Commitments(k, p)|
    ensures CommitCount(k, i) < |Commitments(k, p)| <==> i < |p|
    ensures i < |p| ==> Commitments(k, p)[CommitCount(k, i)] == Bit(k, p[i])
  {
    if i < |p| {
      CommitmentAt(k, p, i);
    } else {
      CountIsLength(k, p);
      CountGrows(k, |p|, i);
    }
  }
}
