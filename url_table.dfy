/** The map semantics shared by the in-memory store and the file-backed store:
    a table from short code to record, deduplicated saving by original URL and
    owner-scoped soft deletion. The stores' methods are proved against these
    functions; the lemmas here state what those functions guarantee. */
module UrlTable {
  import opened Domain

  type Table = map<string, ShortenedURL>

  /** Some stored record has this original URL. */
  predicate HasOriginal(m: Table, url: string)
  {
    exists k :: k in m && m[k].originalURL == url
  }

  /** No two keys hold records with the same original URL. */
  ghost predicate OriginalsDistinct(m: Table)
  {
    forall k1, k2 :: k1 in m && k2 in m && m[k1].originalURL == m[k2].originalURL ==> k1 == k2
  }

  /** Every record is stored under its own short code. */
  ghost predicate KeysMatch(m: Table)
  {
    forall k :: k in m ==> m[k].shortURL == k
  }

  /** A record that FindByOriginalURL may return. The stores iterate a Go map, whose
      order is unspecified; the choice below coincides with theirs whenever
      OriginalsDistinct holds, because then there is only one candidate. */
  ghost function FindOriginal(m: Table, url: string): (r: Option<ShortenedURL>)
    ensures r.Some? <==> HasOriginal(m, url)
    ensures r.Some? ==> r.value in m.Values && r.value.originalURL == url
  {
    if HasOriginal(m, url) then
      var k :| k in m && m[k].originalURL == url; Some(m[k])
    else
      None
  }

  lemma FindOriginalUnique(m: Table, k: string)
    requires OriginalsDistinct(m) && k in m
    ensures FindOriginal(m, m[k].originalURL) == Some(m[k])
  {
  }

  /** The record SaveURL writes for a new original URL: its id is one more than the
      number of stored records, and owner and deletion flag keep their zero values. */
  function NewRecord(m: Table, dto: SaveShortURLDto): ShortenedURL
  {
    ShortenedURL(|m| + 1, dto.shortURL, dto.originalURL, "", false)
  }

  /** What one save returns (record and error) and the table it leaves. */
  datatype SaveOutcome = SaveOutcome(rec: ShortenedURL, err: Option<Error>, table: Table)

  /** SaveURL of both map stores. */
  ghost function SaveOne(m: Table, dto: SaveShortURLDto): (o: SaveOutcome)
    ensures o.rec.originalURL == dto.originalURL
  {
    match FindOriginal(m, dto.originalURL)
    case Some(r) => SaveOutcome(r, Some(URLConflict), m)
    case None =>
      var r := NewRecord(m, dto);
      SaveOutcome(r, None, m[dto.shortURL := r])
  }

  /** A stored original URL gives back a stored record with URLConflict and the table
      unchanged; a new one is written under the proposed code, overwriting whatever
      was there, with the next id, no owner and no deletion flag. */
  lemma SaveOneSpec(m: Table, dto: SaveShortURLDto)
    ensures var o := SaveOne(m, dto);
            && (o.err == Some(URLConflict) <==> HasOriginal(m, dto.originalURL))
            && (o.err == Some(URLConflict) ==> o.table == m && o.rec in m.Values)
            && (o.err != Some(URLConflict) ==>
                  && o.err == None
                  && o.table.Keys == m.Keys + {dto.shortURL}
                  && o.table[dto.shortURL] == o.rec
                  && o.rec.id == |m| + 1 && o.rec.shortURL == dto.shortURL
                  && o.rec.userID == "" && !o.rec.isDeleted
                  && forall k :: k in m && k != dto.shortURL ==> o.table[k] == m[k])
  {
  }

  lemma SaveOnePreservesDistinct(m: Table, dto: SaveShortURLDto)
    requires OriginalsDistinct(m)
    ensures OriginalsDistinct(SaveOne(m, dto).table)
  {
  }

  lemma SaveOnePreservesKeysMatch(m: Table, dto: SaveShortURLDto)
    requires KeysMatch(m)
    ensures KeysMatch(SaveOne(m, dto).table)
  {
  }

  /** Saving the same original URL twice: the second save returns the record of the
      first (hence the same short code), signals URLConflict and changes nothing. */
  lemma {:induction false} SaveTwiceSameRecord(m: Table, d1: SaveShortURLDto, d2: SaveShortURLDto)
    requires OriginalsDistinct(m)
    requires d1.originalURL == d2.originalURL
    ensures var o1 := SaveOne(m, d1); var o2 := SaveOne(o1.table, d2);
            o2.rec == o1.rec && o2.err == Some(URLConflict) && o2.table == o1.table
  {
    var o1 := SaveOne(m, d1);
    SaveOnePreservesDistinct(m, d1);
    if o1.err == None {
      FindOriginalUnique(o1.table, d1.shortURL);
    } else {
      assert o1.table == m;
    }
  }

  /** The records a batch returns, one per request, and the final table. */
  datatype BatchOutcome = BatchOutcome(recs: seq<ShortenedURL>, table: Table)

  /** SaveSeveralURL of both map stores: every request is saved in input order. */
  ghost function SaveMany(m: Table, dtos: seq<SaveShortURLDto>): (o: BatchOutcome)
    ensures |o.recs| == |dtos|
    decreases |dtos|
  {
    if dtos == [] then
      BatchOutcome([], m)
    else
      var first := SaveOne(m, dtos[0]);
      var rest := SaveMany(first.table, dtos[1..]);
      BatchOutcome([first.rec] + rest.recs, rest.table)
  }

  /** A batch with one more request is the shorter batch followed by one save. */
  lemma {:induction false} SaveManySnoc(m: Table, dtos: seq<SaveShortURLDto>, dto: SaveShortURLDto)
    ensures var o := SaveMany(m, dtos); var last := SaveOne(o.table, dto);
            SaveMany(m, dtos + [dto]) == BatchOutcome(o.recs + [last.rec], last.table)
    decreases |dtos|
  {
    if dtos == [] {
      assert dtos + [dto] == [dto];
    } else {
      assert (dtos + [dto])[0] == dtos[0] && (dtos + [dto])[1..] == dtos[1..] + [dto];
      SaveManySnoc(SaveOne(m, dtos[0]).table, dtos[1..], dto);
    }
  }

  /** Every record a batch returns carries its request's original URL. */
  lemma {:induction false} SaveManyOriginals(m: Table, dtos: seq<SaveShortURLDto>)
    ensures forall i :: 0 <= i < |dtos| ==> SaveMany(m, dtos).recs[i].originalURL == dtos[i].originalURL
    decreases |dtos|
  {
    if dtos != [] {
      var first := SaveOne(m, dtos[0]);
      SaveManyOriginals(first.table, dtos[1..]);
      var o := SaveMany(m, dtos);
      var rest := SaveMany(first.table, dtos[1..]);
      forall i | 0 <= i < |dtos| ensures o.recs[i].originalURL == dtos[i].originalURL {
        if i > 0 {
          assert o.recs[i] == rest.recs[i - 1] && dtos[1..][i - 1] == dtos[i];
        }
      }
    }
  }

  /** One request of a batch loop: the prefix saved so far grows by request `i`. */
  lemma SaveManyExtend(m: Table, dtos: seq<SaveShortURLDto>, i: nat, recs: seq<ShortenedURL>, t: Table, o: SaveOutcome)
    requires i < |dtos| && OriginalsDistinct(m)
    requires SaveMany(m, dtos[..i]) == BatchOutcome(recs, t) && o == SaveOne(t, dtos[i])
    ensures SaveMany(m, dtos[..i + 1]) == BatchOutcome(recs + [o.rec], o.table)
    ensures OriginalsDistinct(o.table)
  {
    assert dtos[..i + 1] == dtos[..i] + [dtos[i]];
    SaveManySnoc(m, dtos[..i], dtos[i]);
    SaveManyPreservesDistinct(m, dtos[..i]);
    SaveOnePreservesDistinct(t, dtos[i]);
  }

  lemma {:induction false} SaveManyPreservesDistinct(m: Table, dtos: seq<SaveShortURLDto>)
    requires OriginalsDistinct(m)
    ensures OriginalsDistinct(SaveMany(m, dtos).table)
    decreases |dtos|
  {
    if dtos != [] {
      SaveOnePreservesDistinct(m, dtos[0]);
      SaveManyPreservesDistinct(SaveOne(m, dtos[0]).table, dtos[1..]);
    }
  }

  /** The short code proposed by request `i` of a batch. It is a function of its own so
      that CodesFresh's quantifiers have a term to trigger on that `dtos[i]` alone would
      not narrow down. */
  function CodeAt(dtos: seq<SaveShortURLDto>, i: nat): string
    requires i < |dtos|
  {
    dtos[i].shortURL
  }

  /** The short codes proposed in a batch are pairwise distinct and none is stored. */
  ghost predicate CodesFresh(m: Table, dtos: seq<SaveShortURLDto>)
  {
    && (forall i :: 0 <= i < |dtos| ==> CodeAt(dtos, i) !in m)
    && (forall i, j :: 0 <= i < j < |dtos| ==> CodeAt(dtos, i) != CodeAt(dtos, j))
  }

  lemma CodesFreshTail(m: Table, dtos: seq<SaveShortURLDto>)
    requires dtos != [] && CodesFresh(m, dtos)
    ensures CodesFresh(SaveOne(m, dtos[0]).table, dtos[1..])
    ensures forall k :: k in m ==> k in SaveOne(m, dtos[0]).table && SaveOne(m, dtos[0]).table[k] == m[k]
  {
    SaveOneSpec(m, dtos[0]);
    var t := SaveOne(m, dtos[0]).table;
    var tail := dtos[1..];
    assert CodeAt(dtos, 0) !in m;
    forall i | 0 <= i < |tail| ensures CodeAt(tail, i) !in t {
      assert CodeAt(tail, i) == CodeAt(dtos, i + 1) != CodeAt(dtos, 0);
    }
    forall i, j | 0 <= i < j < |tail| ensures CodeAt(tail, i) != CodeAt(tail, j) {
      assert CodeAt(tail, i) == CodeAt(dtos, i + 1) && CodeAt(tail, j) == CodeAt(dtos, j + 1);
    }
  }

  /** Without code collisions a batch keeps every stored record as it was. */
  lemma {:induction false} SaveManyKeepsRecords(m: Table, dtos: seq<SaveShortURLDto>)
    requires CodesFresh(m, dtos)
    ensures forall k :: k in m ==> k in SaveMany(m, dtos).table && SaveMany(m, dtos).table[k] == m[k]
    decreases |dtos|
  {
    if dtos != [] {
      CodesFreshTail(m, dtos);
      SaveManyKeepsRecords(SaveOne(m, dtos[0]).table, dtos[1..]);
    }
  }

  /** Without code collisions every record a batch returns is in the final table. */
  lemma {:induction false} SaveManyRecordsStored(m: Table, dtos: seq<SaveShortURLDto>)
    requires CodesFresh(m, dtos)
    ensures forall i :: 0 <= i < |dtos| ==> SaveMany(m, dtos).recs[i] in SaveMany(m, dtos).table.Values
    decreases |dtos|
  {
    if dtos != [] {
      var first := SaveOne(m, dtos[0]);
      CodesFreshTail(m, dtos);
      SaveManyKeepsRecords(first.table, dtos[1..]);
      SaveManyRecordsStored(first.table, dtos[1..]);
      var o := SaveMany(m, dtos);
      var rest := SaveMany(first.table, dtos[1..]);
      SaveOneSpec(m, dtos[0]);
      assert first.rec in first.table.Values;
      var k0 :| k0 in first.table && first.table[k0] == first.rec;
      assert rest.table[k0] == first.rec;
      forall i | 0 <= i < |dtos| ensures o.recs[i] in o.table.Values {
        if i > 0 {
          assert o.recs[i] == rest.recs[i - 1];
        }
      }
    }
  }

  lemma {:induction false} SaveManyReturnsStoredAt(m: Table, dtos: seq<SaveShortURLDto>, i: nat)
    requires OriginalsDistinct(m) && CodesFresh(m, dtos)
    requires i < |dtos| && HasOriginal(m, dtos[i].originalURL)
    ensures SaveMany(m, dtos).recs[i] == FindOriginal(m, dtos[i].originalURL).value
    decreases i
  {
    var first := SaveOne(m, dtos[0]);
    var tail := dtos[1..];
    var k :| k in m && m[k].originalURL == dtos[i].originalURL;
    FindOriginalUnique(m, k);
    if i > 0 {
      SaveOnePreservesDistinct(m, dtos[0]);
      CodesFreshTail(m, dtos);
      assert tail[i - 1] == dtos[i];
      FindOriginalUnique(first.table, k);
      SaveManyReturnsStoredAt(first.table, tail, i - 1);
    }
  }

  /** Without code collisions, a request whose original URL is already stored gets the
      stored record back. */
  lemma SaveManyReturnsStored(m: Table, dtos: seq<SaveShortURLDto>)
    requires OriginalsDistinct(m) && CodesFresh(m, dtos)
    ensures forall i :: 0 <= i < |dtos| && HasOriginal(m, dtos[i].originalURL) ==>
              SaveMany(m, dtos).recs[i] == FindOriginal(m, dtos[i].originalURL).value
  {
    forall i | 0 <= i < |dtos| && HasOriginal(m, dtos[i].originalURL)
      ensures SaveMany(m, dtos).recs[i] == FindOriginal(m, dtos[i].originalURL).value
    {
      SaveManyReturnsStoredAt(m, dtos, i);
    }
  }

  /** A later request repeating the first request's URL gets the first one's record. */
  lemma SaveManyRepeatsFirst(m: Table, dtos: seq<SaveShortURLDto>, j: nat)
    requires OriginalsDistinct(m) && CodesFresh(m, dtos)
    requires 0 < j < |dtos| && dtos[0].originalURL == dtos[j].originalURL
    ensures SaveMany(m, dtos).recs[j] == SaveOne(m, dtos[0]).rec
  {
    var url := dtos[0].originalURL;
    if HasOriginal(m, url) {
      SaveManyReturnsStoredAt(m, dtos, j);
    } else {
      var first := SaveOne(m, dtos[0]);
      var tail := dtos[1..];
      var code := dtos[0].shortURL;
      SaveOnePreservesDistinct(m, dtos[0]);
      CodesFreshTail(m, dtos);
      assert tail[j - 1] == dtos[j];
      assert first.table == m[code := first.rec];
      FindOriginalUnique(first.table, code);
      SaveManyReturnsStoredAt(first.table, tail, j - 1);
    }
  }

  lemma {:induction false} SaveManyDedupAt(m: Table, dtos: seq<SaveShortURLDto>, i: nat, j: nat)
    requires OriginalsDistinct(m) && CodesFresh(m, dtos)
    requires i < j < |dtos| && dtos[i].originalURL == dtos[j].originalURL
    ensures SaveMany(m, dtos).recs[j] == SaveMany(m, dtos).recs[i]
    decreases i
  {
    if i > 0 {
      var tail := dtos[1..];
      SaveOnePreservesDistinct(m, dtos[0]);
      CodesFreshTail(m, dtos);
      var t := SaveOne(m, dtos[0]).table;
      assert tail[j - 1] == dtos[j] && tail[i - 1] == dtos[i];
      SaveManyDedupAt(t, tail, i - 1, j - 1);
      var o := SaveMany(m, dtos);
      var rest := SaveMany(t, tail).recs;
      assert o.recs == [SaveOne(m, dtos[0]).rec] + rest;
      assert o.recs[j] == rest[j - 1] && o.recs[i] == rest[i - 1];
    } else {
      SaveManyRepeatsFirst(m, dtos, j);
      assert SaveMany(m, dtos).recs[0] == SaveOne(m, dtos[0]).rec;
    }
  }

  /** Batch deduplication without code collisions: a repeated original URL within the
      batch gets the record of its first occurrence. */
  lemma SaveManyDedup(m: Table, dtos: seq<SaveShortURLDto>)
    requires OriginalsDistinct(m) && CodesFresh(m, dtos)
    ensures forall i, j :: 0 <= i < j < |dtos| && dtos[i].originalURL == dtos[j].originalURL ==>
              SaveMany(m, dtos).recs[j] == SaveMany(m, dtos).recs[i]
  {
    forall i, j | 0 <= i < j < |dtos| && dtos[i].originalURL == dtos[j].originalURL
      ensures SaveMany(m, dtos).recs[j] == SaveMany(m, dtos).recs[i]
    {
      SaveManyDedupAt(m, dtos, i, j);
    }
  }

  /** The record a Go map read of `k` yields: the stored one, or the zero record. */
  function Stored(m: Table, k: string): ShortenedURL
  {
    if k in m then m[k] else Zero
  }

  /** The deletion loops' ownership test, made on the record that read yields. */
  predicate OwnedBy(m: Table, k: string, user: string)
  {
    Stored(m, k).userID == user
  }

  /** One iteration of a deletion loop: the record read at `k` is written back with its
      deletion flag set when its owner is `user`; otherwise nothing is written. */
  function DeleteOne(m: Table, k: string, user: string): (r: Table)
    ensures r.Keys == m.Keys + if OwnedBy(m, k, user) then {k} else {}
    ensures Stored(r, k) == if OwnedBy(m, k, user) then Stored(m, k).(isDeleted := true) else Stored(m, k)
    ensures forall j :: j in m && j != k ==> r[j] == m[j]
  {
    if OwnedBy(m, k, user) then m[k := Stored(m, k).(isDeleted := true)] else m
  }

  /** DeleteByShortURLs of both map stores. */
  function DeleteCodes(m: Table, codes: seq<string>, user: string): (r: Table)
    ensures m.Keys <= r.Keys
    ensures forall j :: j in m ==> r[j] == m[j].(isDeleted := r[j].isDeleted) && (m[j].isDeleted ==> r[j].isDeleted)
    ensures forall j :: j in m && j !in codes ==> r[j] == m[j]
    decreases |codes|
  {
    if codes == [] then m else DeleteCodes(DeleteOne(m, codes[0], user), codes[1..], user)
  }

  /** DoDeleteURLTasks of both map stores: DeleteCodes once per task, in order. */
  function ApplyTasks(m: Table, tasks: seq<DeleteURLsTask>): (r: Table)
    ensures m.Keys <= r.Keys
    ensures forall j :: j in m ==> r[j] == m[j].(isDeleted := r[j].isDeleted) && (m[j].isDeleted ==> r[j].isDeleted)
    decreases |tasks|
  {
    if tasks == [] then m
    else ApplyTasks(DeleteCodes(m, tasks[0].shortURLs, tasks[0].userID), tasks[1..])
  }

  /** What DeleteCodes does at each key: a key is flagged exactly when it is listed and
      the record read there belongs to `user`; a missing key is added only in that case
      (which needs `user == ""`, the zero record's owner); nothing else changes. */
  lemma {:induction false} DeleteCodesAt(m: Table, codes: seq<string>, user: string, k: string)
    ensures k in DeleteCodes(m, codes, user) <==> k in m || (k in codes && OwnedBy(m, k, user))
    ensures Stored(DeleteCodes(m, codes, user), k) ==
              if k in codes && OwnedBy(m, k, user) then Stored(m, k).(isDeleted := true)
              else Stored(m, k)
    decreases |codes|
  {
    if codes != [] {
      var m1 := DeleteOne(m, codes[0], user);
      DeleteCodesAt(m1, codes[1..], user, k);
      assert OwnedBy(m1, k, user) == OwnedBy(m, k, user);
      assert k in codes <==> k == codes[0] || k in codes[1..];
    }
  }

  /** Deletion scoping: a record that is not listed, or that another user owns, is
      left exactly as it was, and no record loses its deletion flag. */
  lemma DeleteCodesScoped(m: Table, codes: seq<string>, user: string)
    ensures forall k :: k in m && (k !in codes || m[k].userID != user) ==>
              k in DeleteCodes(m, codes, user) && DeleteCodes(m, codes, user)[k] == m[k]
    ensures forall k :: k in m && k in codes && m[k].userID == user ==>
              k in DeleteCodes(m, codes, user) && DeleteCodes(m, codes, user)[k] == m[k].(isDeleted := true)
  {
    forall k | k in m
      ensures k in DeleteCodes(m, codes, user)
      ensures (k !in codes || m[k].userID != user) ==> DeleteCodes(m, codes, user)[k] == m[k]
      ensures (k in codes && m[k].userID == user) ==> DeleteCodes(m, codes, user)[k] == m[k].(isDeleted := true)
    {
      DeleteCodesAt(m, codes, user, k);
    }
  }

  /** Some task lists `k` and is made by the owner of the record read there. */
  predicate Hit(m: Table, tasks: seq<DeleteURLsTask>, k: string)
  {
    exists i :: 0 <= i < |tasks| && k in tasks[i].shortURLs && OwnedBy(m, k, tasks[i].userID)
  }

  /** What ApplyTasks does at each key: deletion is owner-scoped per task, and a record
      is flagged exactly when some task lists it on behalf of its owner. */
  lemma {:induction false} ApplyTasksAt(m: Table, tasks: seq<DeleteURLsTask>, k: string)
    ensures k in ApplyTasks(m, tasks) <==> k in m || Hit(m, tasks, k)
    ensures Stored(ApplyTasks(m, tasks), k) ==
              if Hit(m, tasks, k) then Stored(m, k).(isDeleted := true) else Stored(m, k)
    decreases |tasks|
  {
    if tasks != [] {
      var t := tasks[0];
      var m1 := DeleteCodes(m, t.shortURLs, t.userID);
      DeleteCodesAt(m, t.shortURLs, t.userID, k);
      ApplyTasksAt(m1, tasks[1..], k);
      assert forall u :: OwnedBy(m1, k, u) == OwnedBy(m, k, u);
      if Hit(m, tasks, k) {
        var i :| 0 <= i < |tasks| && k in tasks[i].shortURLs && OwnedBy(m, k, tasks[i].userID);
        if i > 0 {
          assert tasks[1..][i - 1] == tasks[i];
        }
      }
      if Hit(m1, tasks[1..], k) {
        var i :| 0 <= i < |tasks[1..]| && k in tasks[1..][i].shortURLs && OwnedBy(m1, k, tasks[1..][i].userID);
        assert tasks[1..][i] == tasks[i + 1];
      }
    }
  }

  /** Two tables that agree on every key and on every read are equal. */
  lemma TablesEqual(a: Table, b: Table)
    requires forall k :: (k in a <==> k in b) && Stored(a, k) == Stored(b, k)
    ensures a == b
  {
    assert forall k :: k in a ==> a[k] == Stored(a, k);
  }

  /** Applying the same tasks a second time changes nothing. */
  lemma ApplyTasksIdempotent(m: Table, tasks: seq<DeleteURLsTask>)
    ensures ApplyTasks(ApplyTasks(m, tasks), tasks) == ApplyTasks(m, tasks)
  {
    var m1 := ApplyTasks(m, tasks);
    forall k ensures (k in ApplyTasks(m1, tasks) <==> k in m1) && Stored(ApplyTasks(m1, tasks), k) == Stored(m1, k) {
      ApplyTasksAt(m, tasks, k);
      ApplyTasksAt(m1, tasks, k);
      assert forall u :: OwnedBy(m1, k, u) == OwnedBy(m, k, u);
      assert Hit(m1, tasks, k) == Hit(m, tasks, k);
    }
    TablesEqual(ApplyTasks(m1, tasks), m1);
  }

  /** Applying a concatenation of task lists is applying one after the other. */
  lemma {:induction false} ApplyTasksAppend(m: Table, t1: seq<DeleteURLsTask>, t2: seq<DeleteURLsTask>)
    ensures ApplyTasks(m, t1 + t2) == ApplyTasks(ApplyTasks(m, t1), t2)
    decreases |t1|
  {
    if t1 != [] {
      assert (t1 + t2)[0] == t1[0];
      assert (t1 + t2)[1..] == t1[1..] + t2;
      ApplyTasksAppend(DeleteCodes(m, t1[0].shortURLs, t1[0].userID), t1[1..], t2);
    } else {
      assert t1 + t2 == t2;
    }
  }

  /** An owner other than the zero record's (`""`) can only flag records that exist, so
      deletion then keeps every invariant of the table. */
  lemma DeleteCodesKeepsInvariants(m: Table, codes: seq<string>, user: string)
    requires user != ""
    ensures DeleteCodes(m, codes, user).Keys == m.Keys
    ensures OriginalsDistinct(m) ==> OriginalsDistinct(DeleteCodes(m, codes, user))
    ensures KeysMatch(m) ==> KeysMatch(DeleteCodes(m, codes, user))
  {
    var r := DeleteCodes(m, codes, user);
    forall k ensures (k in r <==> k in m) && (k in m ==> r[k] == m[k].(isDeleted := r[k].isDeleted)) {
      DeleteCodesAt(m, codes, user, k);
    }
  }

  /** As written, deleting two missing codes on behalf of the empty user id adds two
      deleted zero records, which share the original URL "" and are not stored under
      their own short codes. */
  lemma DeleteMissingAsEmptyUser()
    ensures var r := DeleteCodes(map[], ["a", "b"], "");
            && r == map["a" := Zero.(isDeleted := true), "b" := Zero.(isDeleted := true)]
            && !OriginalsDistinct(r) && !KeysMatch(r)
  {
    var r := DeleteCodes(map[], ["a", "b"], "");
    assert r["a"].originalURL == r["b"].originalURL;
    assert r["a"].shortURL != "a";
  }

  /** A record a map store saves for a new original URL has the empty owner, so a
      deletion on behalf of any real user id leaves it exactly as saved. */
  lemma SavedRecordUntouchedByOwnerDeletion(m: Table, dto: SaveShortURLDto, user: string)
    requires !HasOriginal(m, dto.originalURL) && user != ""
    ensures var t := SaveOne(m, dto).table;
            && dto.shortURL in DeleteCodes(t, [dto.shortURL], user)
            && DeleteCodes(t, [dto.shortURL], user)[dto.shortURL] == NewRecord(m, dto)
            && !DeleteCodes(t, [dto.shortURL], user)[dto.shortURL].isDeleted
  {
    var t := SaveOne(m, dto).table;
    assert t[dto.shortURL] == NewRecord(m, dto);
    DeleteCodesAt(t, [dto.shortURL], user, dto.shortURL);
  }
}
