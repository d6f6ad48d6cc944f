/** The two info-hash filters of the handshake whitelist test: a filter that
    blocks every info hash, and a filter that allows exactly one info hash.
    Each is a pure function from the (possibly not yet known) info hash of a
    handshake to a `FilterDecision`. How the handshaker combines the answers
    of several filters is not part of this model; `Verdicts` only lists what
    each registered filter answers. */
module WhitelistFilters {
  import opened Wrappers
  import opened BtTypes

  /** `Allow` and `Block` are decisive, `Pass` has no opinion and `NeedData`
      asks to be queried again once more of the handshake is known. */
  datatype FilterDecision = Allow | Block | Pass | NeedData

  /** `BlockAllHash` is the unit struct `FilterBlockAllHash`; `AllowHash(h)` is
      `FilterAllowHash { hash: h }`. Equality is structural, as the derived
      `PartialEq` of both structs is. */
  datatype HashFilter = BlockAllHash | AllowHash(hash: InfoHash)
  {
    /** The filter's answer when queried with the info hash of a handshake,
        `None` while the hash is not known yet. */
    function OnHash(optHash: Option<InfoHash>): (d: FilterDecision)
      ensures d == Block <==> BlockAllHash?
      ensures d == Allow <==> AllowHash? && optHash == Some(hash)
      ensures d == NeedData <==> AllowHash? && optHash == None
      ensures d == Pass <==> AllowHash? && optHash.Some? && optHash.value != hash
    {
      match this
      case BlockAllHash => Block
      case AllowHash(allowed) =>
        match optHash
        case Some(h) => if h == allowed then Allow else Pass
        case None => NeedData
    }
  }

  /** Once the info hash is known, neither filter asks for more data. */
  lemma KnownHashIsDecided(f: HashFilter, h: InfoHash)
    ensures f.OnHash(Some(h)) != NeedData
    ensures f.OnHash(Some(h)) == Allow || f.OnHash(Some(h)) == Block || f.OnHash(Some(h)) == Pass
  {
  }

  /** The answers of the registered filters, in registration order. */
  function Verdicts(filters: seq<HashFilter>, optHash: Option<InfoHash>): seq<FilterDecision>
  {
    if |filters| == 0 then [] else [filters[0].OnHash(optHash)] + Verdicts(filters[1..], optHash)
  }

  lemma {:induction false} VerdictsShape(filters: seq<HashFilter>, optHash: Option<InfoHash>)
    ensures |Verdicts(filters, optHash)| == |filters|
    ensures forall i :: 0 <= i < |filters| ==> Verdicts(filters, optHash)[i] == filters[i].OnHash(optHash)
  {
    if |filters| > 0 {
      VerdictsShape(filters[1..], optHash);
      forall i | 0 < i < |filters|
        ensures Verdicts(filters, optHash)[i] == filters[i].OnHash(optHash)
      {
        assert filters[1..][i - 1] == filters[i];
      }
    }
  }

  lemma {:induction false} VerdictsAppend(fs: seq<HashFilter>, gs: seq<HashFilter>, optHash: Option<InfoHash>)
    ensures Verdicts(fs + gs, optHash) == Verdicts(fs, optHash) + Verdicts(gs, optHash)
    decreases |fs|
  {
    if |fs| == 0 {
      assert fs + gs == gs;
    } else {
      assert (fs + gs)[0] == fs[0] && (fs + gs)[1..] == fs[1..] + gs;
      VerdictsAppend(fs[1..], gs, optHash);
    }
  }

  /** Taking one filter out of a registration list takes its answer out of
      the answers. */
  lemma VerdictsSplit(before: seq<HashFilter>, f: HashFilter, after: seq<HashFilter>, optHash: Option<InfoHash>)
    ensures multiset(Verdicts(before + [f] + after, optHash))
         == multiset(Verdicts(before + after, optHash)) + multiset{f.OnHash(optHash)}
  {
    var vb, va, d := Verdicts(before, optHash), Verdicts(after, optHash), f.OnHash(optHash);
    assert Verdicts([f] + after, optHash) == [d] + va by {
      assert ([f] + after)[0] == f && ([f] + after)[1..] == after;
    }
    assert Verdicts(before + [f] + after, optHash) == vb + ([d] + va) by {
      assert before + [f] + after == before + ([f] + after);
      VerdictsAppend(before, [f] + after, optHash);
    }
    assert Verdicts(before + after, optHash) == vb + va by {
      VerdictsAppend(before, after, optHash);
    }
    assert multiset(vb + ([d] + va)) == multiset(vb + va) + multiset{d};
  }

  lemma RemoveAt(gs: seq<HashFilter>, k: nat)
    requires k < |gs|
    ensures gs == gs[..k] + [gs[k]] + gs[k + 1..]
    ensures multiset(gs[..k] + gs[k + 1..]) == multiset(gs) - multiset{gs[k]}
  {
    assert gs == gs[..k] + [gs[k]] + gs[k + 1..];
  }

  /** The order in which filters are registered does not matter: registering
      the same filters in another order permutes their answers. */
  lemma {:induction false} VerdictsPermutation(fs: seq<HashFilter>, gs: seq<HashFilter>, optHash: Option<InfoHash>)
    requires multiset(fs) == multiset(gs)
    ensures multiset(Verdicts(fs, optHash)) == multiset(Verdicts(gs, optHash))
    decreases |fs|
  {
    if |fs| == 0 {
      assert |gs| == |multiset(gs)| == 0;
    } else {
      var f := fs[0];
      assert f in multiset(gs);
      var k :| 0 <= k < |gs| && gs[k] == f;
      RemoveAt(gs, k);
      RemoveAt(fs, 0);
      var rest := gs[..k] + gs[k + 1..];
      VerdictsPermutation(fs[1..], rest, optHash);
      VerdictsSplit(gs[..k], f, gs[k + 1..], optHash);
      VerdictsSplit([], f, fs[1..], optHash);
      assert [] + [f] + fs[1..] == fs && [] + fs[1..] == fs[1..];
    }
  }

  /** Some registered filter answers `Allow` exactly when the hash is known and
      an allow-filter for that very hash is registered. */
  lemma {:induction false} AllowVerdictIffWhitelisted(filters: seq<HashFilter>, optHash: Option<InfoHash>)
    ensures Allow in Verdicts(filters, optHash) <==> optHash.Some? && AllowHash(optHash.value) in filters
  {
    if |filters| > 0 {
      AllowVerdictIffWhitelisted(filters[1..], optHash);
      assert filters == [filters[0]] + filters[1..];
    }
  }

  /** Some registered filter answers `Block` exactly when a block-all filter is
      registered, whatever the query. */
  lemma {:induction false} BlockVerdictIffBlockAll(filters: seq<HashFilter>, optHash: Option<InfoHash>)
    ensures Block in Verdicts(filters, optHash) <==> BlockAllHash in filters
  {
    if |filters| > 0 {
      BlockVerdictIffBlockAll(filters[1..], optHash);
      assert filters == [filters[0]] + filters[1..];
    }
  }

  /** Some registered filter answers `NeedData` exactly when the hash is not yet
      known and an allow-filter is registered. */
  lemma {:induction false} NeedDataVerdictIffUnknown(filters: seq<HashFilter>, optHash: Option<InfoHash>)
    ensures NeedData in Verdicts(filters, optHash)
        <==> optHash.None? && exists i :: 0 <= i < |filters| && filters[i].AllowHash?
  {
    if |filters| > 0 {
      NeedDataVerdictIffUnknown(filters[1..], optHash);
      if optHash.None? && filters[0].AllowHash? {
        assert NeedData in Verdicts(filters, optHash);
      }
      if optHash.None? && (exists i :: 0 <= i < |filters| && filters[i].AllowHash?) && !filters[0].AllowHash? {
        var i :| 0 <= i < |filters| && filters[i].AllowHash?;
        assert filters[1..][i - 1].AllowHash?;
      }
      if optHash.None? && (exists i :: 0 <= i < |filters[1..]| && filters[1..][i].AllowHash?) {
        var i :| 0 <= i < |filters[1..]| && filters[1..][i].AllowHash?;
        assert filters[i + 1].AllowHash?;
      }
    }
  }

  /** The filters the whitelist test registers: block every hash, then allow
      the hash made of twenty bytes 55. */
  function WhitelistTestFilters(): seq<HashFilter>
  {
    [BlockAllHash, AllowHash(RepeatedHash(55))]
  }

  /** The test's scenario: queried with the hash made of twenty bytes 54, the
      block-all filter answers `Block`, the allow-filter answers `Pass`, and no
      filter answers `Allow`; the test's expectation that the handshake never
      completes rests on this. For contrast, the whitelisted hash draws an
      `Allow` and an unknown hash draws a `NeedData`. */
  lemma WhitelistScenario()
    ensures Verdicts(WhitelistTestFilters(), Some(RepeatedHash(54))) == [Block, Pass]
    ensures Allow !in Verdicts(WhitelistTestFilters(), Some(RepeatedHash(54)))
    ensures Verdicts(WhitelistTestFilters(), Some(RepeatedHash(55))) == [Block, Allow]
    ensures Verdicts(WhitelistTestFilters(), None) == [Block, NeedData]
  {
    var fs := WhitelistTestFilters();
    assert RepeatedHash(54)[0] != RepeatedHash(55)[0];
    assert Verdicts(fs[2..], Some(RepeatedHash(54))) == [];
    assert Verdicts(fs[1..], Some(RepeatedHash(54))) == [Pass];
  }
}
