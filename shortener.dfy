/** The shortener service: glue between a short-code generator, a URL store and the
    deletion queue.

    The store is reached through an interface; here every call the service makes is
    recorded in `calls` and the store's answer is a parameter of the operation. The
    generator is the fixed sequence of codes `generate(0), generate(1), ...`, of which
    `draws` have been taken. Tasks handed to the deletion queue are recorded in
    `handedOff`. */
module Shortener {
  import opened Domain
  import opened UrlTable

  /** One call into the store. */
  datatype StoreCall =
    | SaveURLCall(dto: SaveShortURLDto)
    | SaveSeveralURLCall(dtos: seq<SaveShortURLDto>)
    | GetByShortURLCall(shortURL: string)
    | GetURLsByUserIDCall(userID: string)
    | GetInternalStatsCall
    | PingCall

  /** What a store call answers: a value (Go's non-nil pointer or slice) and an error,
      each possibly absent; a conflicting save answers both. */
  datatype Reply<+T> = Reply(value: Option<T>, err: Option<Error>)

  /** The save requests of a batch: request `i` carries input `i`'s original URL, the
      `i`-th code drawn from `start` on, and the caller's user id. */
  function BatchDtos(urls: seq<ShortBatchURL>, userID: string, generate: nat -> string, start: nat): (dtos: seq<SaveShortURLDto>)
    ensures |dtos| == |urls|
    decreases |urls|
  {
    if urls == [] then []
    else
      var n := |urls| - 1;
      BatchDtos(urls[..n], userID, generate, start) + [SaveShortURLDto(urls[n].originalURL, generate(start + n), userID)]
  }

  lemma {:induction false} BatchDtosAt(urls: seq<ShortBatchURL>, userID: string, generate: nat -> string, start: nat, i: nat)
    requires i < |urls|
    ensures BatchDtos(urls, userID, generate, start)[i] == SaveShortURLDto(urls[i].originalURL, generate(start + i), userID)
    decreases |urls|
  {
    var n := |urls| - 1;
    if i < n {
      BatchDtosAt(urls[..n], userID, generate, start, i);
    }
  }

  /** The correlation table of a batch: every original URL of the input mapped to a
      correlation id, later inputs overwriting earlier ones; so it has at most one entry
      per input, and none only for an empty batch. */
  function Correlations(urls: seq<ShortBatchURL>): (r: map<string, string>)
    ensures |r| <= |urls| && (urls != [] ==> |r| >= 1)
    decreases |urls|
  {
    if urls == [] then map[]
    else
      var last := urls[|urls| - 1];
      Correlations(urls[..|urls| - 1])[last.originalURL := last.correlationID]
  }

  /** The table's keys are exactly the input's original URLs. */
  lemma {:induction false} CorrelationsKeys(urls: seq<ShortBatchURL>)
    ensures forall k :: k in Correlations(urls) <==> exists i :: 0 <= i < |urls| && urls[i].originalURL == k
    decreases |urls|
  {
    if urls != [] {
      var n := |urls| - 1;
      var init := urls[..n];
      CorrelationsKeys(init);
      forall k ensures k in Correlations(urls) <==> exists i :: 0 <= i < |urls| && urls[i].originalURL == k {
        if k in Correlations(init) {
          var i :| 0 <= i < |init| && init[i].originalURL == k;
          assert urls[i] == init[i];
        }
        if exists i :: 0 <= i < |urls| && urls[i].originalURL == k {
          var i :| 0 <= i < |urls| && urls[i].originalURL == k;
          if i < n {
            assert init[i] == urls[i];
          }
        }
      }
    }
  }

  /** Last write wins: an original URL maps to the correlation id of its last
      occurrence in the input. */
  lemma {:induction false} CorrelationsLastWins(urls: seq<ShortBatchURL>, i: nat)
    requires i < |urls| && forall j :: i < j < |urls| ==> urls[j].originalURL != urls[i].originalURL
    ensures urls[i].originalURL in Correlations(urls)
    ensures Correlations(urls)[urls[i].originalURL] == urls[i].correlationID
    decreases |urls|
  {
    var n := |urls| - 1;
    if i < n {
      var init := urls[..n];
      assert init[i] == urls[i];
      assert forall j :: i < j < |init| ==> init[j] == urls[j];
      CorrelationsLastWins(init, i);
    }
  }

  /** A Go map read: the stored string, or "" for a missing key. */
  function Lookup(m: map<string, string>, k: string): string
  {
    if k in m then m[k] else ""
  }

  /** The batch answer entry for one stored record. */
  function Answer(rec: ShortenedURL, correlations: map<string, string>): ShortBatchURL
  {
    ShortBatchURL(Lookup(correlations, rec.originalURL), rec.originalURL, rec.shortURL)
  }

  /** The batch answer: one entry per stored record, in store order, with the record's
      code and URL and the correlation id the table holds for that URL. */
  function JoinBatch(recs: seq<ShortenedURL>, correlations: map<string, string>): (out: seq<ShortBatchURL>)
    ensures |out| == |recs|
    decreases |recs|
  {
    if recs == [] then [] else JoinBatch(recs[..|recs| - 1], correlations) + [Answer(recs[|recs| - 1], correlations)]
  }

  lemma {:induction false} JoinBatchAt(recs: seq<ShortenedURL>, correlations: map<string, string>, i: nat)
    requires i < |recs|
    ensures JoinBatch(recs, correlations)[i] == Answer(recs[i], correlations)
    decreases |recs|
  {
    var n := |recs| - 1;
    if i < n {
      JoinBatchAt(recs[..n], correlations, i);
    }
  }

  /** No two inputs of a batch share an original URL. */
  predicate DistinctOriginals(urls: seq<ShortBatchURL>)
  {
    forall i, j :: 0 <= i < j < |urls| ==> urls[i].originalURL != urls[j].originalURL
  }

  /** When the inputs have distinct URLs and the store answers record `i` for request
      `i` with the same URL, every input's correlation id comes back at its position. */
  lemma JoinRecoversCorrelationAt(urls: seq<ShortBatchURL>, recs: seq<ShortenedURL>, i: nat)
    requires DistinctOriginals(urls) && |recs| == |urls| && i < |urls|
    requires recs[i].originalURL == urls[i].originalURL
    ensures JoinBatch(recs, Correlations(urls))[i].correlationID == urls[i].correlationID
  {
    CorrelationsLastWins(urls, i);
    JoinBatchAt(recs, Correlations(urls), i);
  }

  /** The same without any order on the store's answer: whichever record carries an
      input's URL gets that input's correlation id, wherever it stands. */
  lemma JoinFindsCorrelation(urls: seq<ShortBatchURL>, recs: seq<ShortenedURL>, i: nat, j: nat)
    requires DistinctOriginals(urls) && i < |urls| && j < |recs|
    requires recs[j].originalURL == urls[i].originalURL
    ensures JoinBatch(recs, Correlations(urls))[j].correlationID == urls[i].correlationID
  {
    CorrelationsLastWins(urls, i);
    JoinBatchAt(recs, Correlations(urls), j);
  }

  lemma JoinRecoversCorrelations(urls: seq<ShortBatchURL>, recs: seq<ShortenedURL>)
    requires DistinctOriginals(urls) && |recs| == |urls|
    requires forall i :: 0 <= i < |urls| ==> recs[i].originalURL == urls[i].originalURL
    ensures forall i :: 0 <= i < |urls| ==>
              JoinBatch(recs, Correlations(urls))[i].correlationID == urls[i].correlationID
  {
    forall i | 0 <= i < |urls| {
      JoinRecoversCorrelationAt(urls, recs, i);
    }
  }

  /** End to end over a map store: a batch with distinct URLs, saved as SaveSeveralURL
      of the in-memory or file store does, answers every input in input order with its
      own URL and correlation id. */
  lemma BatchOverMapStore(m: Table, urls: seq<ShortBatchURL>, userID: string, generate: nat -> string, start: nat)
    requires DistinctOriginals(urls)
    ensures var dtos := BatchDtos(urls, userID, generate, start);
            var out := JoinBatch(SaveMany(m, dtos).recs, Correlations(urls));
            && |out| == |urls|
            && forall i :: 0 <= i < |urls| ==>
                 out[i].originalURL == urls[i].originalURL && out[i].correlationID == urls[i].correlationID
  {
    var dtos := BatchDtos(urls, userID, generate, start);
    var recs := SaveMany(m, dtos).recs;
    SaveManyOriginals(m, dtos);
    forall i | 0 <= i < |urls| ensures recs[i].originalURL == urls[i].originalURL {
      BatchDtosAt(urls, userID, generate, start, i);
    }
    JoinRecoversCorrelations(urls, recs);
    forall i | 0 <= i < |urls| ensures JoinBatch(recs, Correlations(urls))[i].originalURL == urls[i].originalURL {
      JoinBatchAt(recs, Correlations(urls), i);
    }
  }

  /** The second loop of ShortBatchURL: one answer per stored record, in order. */
  method JoinRecords(shortenedURLs: seq<ShortenedURL>, correlations: map<string, string>) returns (out: seq<ShortBatchURL>)
    ensures out == JoinBatch(shortenedURLs, correlations)
  {
    out := [];
    var j := 0;
    while j < |shortenedURLs|
      invariant 0 <= j <= |shortenedURLs|
      invariant out == JoinBatch(shortenedURLs[..j], correlations)
    {
      var url := shortenedURLs[j];
      out := out + [Answer(url, correlations)];
      assert shortenedURLs[..j + 1][..j] == shortenedURLs[..j];
      j := j + 1;
    }
    assert shortenedURLs[..j] == shortenedURLs;
  }

  class ShortenerService {
    const generate: nat -> string
    var draws: nat
    var calls: seq<StoreCall>
    var handedOff: seq<DeleteURLsTask>

    /** NewShortenerService: nothing drawn, called or handed off yet. */
    constructor (generate: nat -> string)
      ensures this.generate == generate
      ensures draws == 0 && calls == [] && handedOff == []
    {
      this.generate := generate;
      draws, calls, handedOff := 0, [], [];
    }

    /** GenerateRandom: the next code of the generator. */
    method Draw() returns (code: string)
      modifies this`draws
      ensures code == generate(old(draws)) && draws == old(draws) + 1
    {
      code := generate(draws);
      draws := draws + 1;
    }

    /** ShortURL: one code is drawn and SaveURL is called once with (url, that code,
        userID); the store's record and error come back unchanged. */
    method ShortURL(url: string, userID: string, reply: Reply<ShortenedURL>) returns (r: Reply<ShortenedURL>)
      modifies this`draws, this`calls
      ensures draws == old(draws) + 1
      ensures calls == old(calls) + [SaveURLCall(SaveShortURLDto(url, generate(old(draws)), userID))]
      ensures r == reply
    {
      var shortURL := Draw();
      calls := calls + [SaveURLCall(SaveShortURLDto(url, shortURL, userID))];
      r := reply;
    }

    /** ShortBatchURL: one code per input, one SaveSeveralURL call with the requests
        in input order; a store error is returned with no result, otherwise the
        records are joined with the correlation table. */
    method ShortBatchURL(urls: seq<ShortBatchURL>, userID: string, reply: Reply<seq<ShortenedURL>>)
      returns (result: Option<seq<ShortBatchURL>>, err: Option<Error>)
      modifies this`draws, this`calls
      ensures draws == old(draws) + |urls|
      ensures calls == old(calls) + [SaveSeveralURLCall(BatchDtos(urls, userID, generate, old(draws)))]
      ensures reply.err.Some? ==> result == None && err == reply.err
      ensures reply.err.None? ==>
                err == None && result == Some(JoinBatch(if reply.value.Some? then reply.value.value else [], Correlations(urls)))
    {
      var correlations: map<string, string> := map[];
      var saveDtos: seq<SaveShortURLDto> := [];
      var i := 0;
      while i < |urls|
        invariant 0 <= i <= |urls|
        invariant draws == old(draws) + i && calls == old(calls)
        invariant saveDtos == BatchDtos(urls[..i], userID, generate, old(draws))
        invariant correlations == Correlations(urls[..i])
      {
        var url := urls[i];
        var code := Draw();
        saveDtos := saveDtos + [SaveShortURLDto(url.originalURL, code, userID)];
        correlations := correlations[url.originalURL := url.correlationID];
        assert urls[..i + 1][..i] == urls[..i];
        i := i + 1;
      }
      assert urls[..i] == urls;
      calls := calls + [SaveSeveralURLCall(saveDtos)];
      if reply.err.Some? {
        return None, reply.err;
      }
      var shortenedURLs := if reply.value.Some? then reply.value.value else [];
      var out := JoinRecords(shortenedURLs, correlations);
      return Some(out), None;
    }

    /** GetByShortURL: the store's answer, unchanged. */
    method GetByShortURL(url: string, reply: Reply<ShortenedURL>) returns (r: Reply<ShortenedURL>)
      modifies this`calls
      ensures calls == old(calls) + [GetByShortURLCall(url)] && r == reply
    {
      calls := calls + [GetByShortURLCall(url)];
      r := reply;
    }

    /** GetUserURLs: the store's answer, unchanged. */
    method GetUserURLs(userID: string, reply: Reply<seq<ShortenedURL>>) returns (r: Reply<seq<ShortenedURL>>)
      modifies this`calls
      ensures calls == old(calls) + [GetURLsByUserIDCall(userID)] && r == reply
    {
      calls := calls + [GetURLsByUserIDCall(userID)];
      r := reply;
    }

    /** DeleteURLs: exactly one task with the caller's codes and id goes to the queue;
        the call never fails. */
    method DeleteURLs(urls: seq<string>, userID: string) returns (err: Option<Error>)
      modifies this`handedOff
      ensures err == None
      ensures handedOff == old(handedOff) + [DeleteURLsTask(urls, userID)]
    {
      handedOff := handedOff + [DeleteURLsTask(urls, userID)];
      err := None;
    }

    /** GetInternalStats: the store's answer, unchanged. */
    method GetInternalStats(reply: Reply<InternalStats>) returns (r: Reply<InternalStats>)
      modifies this`calls
      ensures calls == old(calls) + [GetInternalStatsCall] && r == reply
    {
      calls := calls + [GetInternalStatsCall];
      r := reply;
    }

    /** Ping: the store's answer, unchanged. */
    method Ping(reply: Option<Error>) returns (err: Option<Error>)
      modifies this`calls
      ensures calls == old(calls) + [PingCall] && err == reply
    {
      calls := calls + [PingCall];
      err := reply;
    }
  }
}
