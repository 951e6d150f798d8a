/** The in-memory store: one map from short code to record, updated in place. */
module InMemory {
  import opened Domain
  import opened UrlTable

  class InMemoryStorage {
    var structure: Table

    /** NewInMemoryStorage: an empty map (the constructor never fails). */
    constructor ()
      ensures structure == map[]
    {
      structure := map[];
    }

    /** The stored record exactly when the code is a key; URLNotFound otherwise. */
    method GetByShortURL(shortURL: string) returns (r: Result<ShortenedURL>)
      ensures r.Success? <==> shortURL in structure
      ensures r.Success? ==> r.value == structure[shortURL]
      ensures r.Failure? ==> r.error == URLNotFound
    {
      if shortURL in structure {
        r := Success(structure[shortURL]);
      } else {
        r := Failure(URLNotFound);
      }
    }

    /** The records owned by `userID`, each exactly once: `keys` lists the keys they are
        read from, which are exactly the keys whose record has that owner. */
    method GetURLsByUserID(userID: string) returns (urls: seq<ShortenedURL>, err: Option<Error>, ghost keys: seq<string>)
      ensures err == None
      ensures |keys| == |urls|
      ensures forall i :: 0 <= i < |keys| ==> keys[i] in structure && urls[i] == structure[keys[i]]
      ensures forall i, j :: 0 <= i < j < |keys| ==> keys[i] != keys[j]
      ensures forall k :: k in structure && structure[k].userID == userID <==> k in keys
    {
      urls, keys := [], [];
      var rest := structure.Keys;
      while rest != {}
        invariant rest <= structure.Keys
        invariant |keys| == |urls|
        invariant forall i :: 0 <= i < |keys| ==> keys[i] in structure && keys[i] !in rest && urls[i] == structure[keys[i]]
        invariant forall i, j :: 0 <= i < j < |keys| ==> keys[i] != keys[j]
        invariant forall k :: k in structure && structure[k].userID == userID && k !in rest <==> k in keys
        decreases rest
      {
        var k :| k in rest;
        if structure[k].userID == userID {
          urls := urls + [structure[k]];
          keys := keys + [k];
        }
        rest := rest - {k};
      }
      err := None;
    }

    /** Some record with this original URL, or the zero record and URLNotFound; when
        original URLs are distinct the record found is the only candidate. */
    method FindByOriginalURL(originalURL: string) returns (found: ShortenedURL, err: Option<Error>)
      ensures err == None || err == Some(URLNotFound)
      ensures err == None <==> HasOriginal(structure, originalURL)
      ensures err == None ==> found in structure.Values && found.originalURL == originalURL
      ensures err != None ==> found == Zero
      ensures OriginalsDistinct(structure) ==>
                FindOriginal(structure, originalURL) == if err == None then Some(found) else None
    {
      var rest := structure.Keys;
      while rest != {}
        invariant rest <= structure.Keys
        invariant forall k :: k in structure && k !in rest ==> structure[k].originalURL != originalURL
        decreases rest
      {
        var k :| k in rest;
        if structure[k].originalURL == originalURL {
          if OriginalsDistinct(structure) {
            FindOriginalUnique(structure, k);
          }
          return structure[k], None;
        }
        rest := rest - {k};
      }
      return Zero, Some(URLNotFound);
    }

    /** A stored original URL gives back its record with URLConflict and no change;
        otherwise a new record is written at the proposed code (overwriting whatever
        was there) and returned without error. */
    method SaveURL(dto: SaveShortURLDto) returns (rec: ShortenedURL, err: Option<Error>)
      modifies this
      ensures rec.originalURL == dto.originalURL
      ensures err == Some(URLConflict) <==> HasOriginal(old(structure), dto.originalURL)
      ensures err == Some(URLConflict) ==> rec in old(structure).Values && structure == old(structure)
      ensures err != Some(URLConflict) ==>
                err == None && rec == NewRecord(old(structure), dto) && structure == old(structure)[dto.shortURL := rec]
      ensures OriginalsDistinct(old(structure)) ==> SaveOne(old(structure), dto) == SaveOutcome(rec, err, structure)
    {
      var existing, findErr := FindByOriginalURL(dto.originalURL);
      if findErr == None {
        return existing, Some(URLConflict);
      }
      structure := structure[dto.shortURL := NewRecord(structure, dto)];
      rec := structure[dto.shortURL];
      err := None;
    }

    /** SaveURL once per request, in order; a conflict is not an error here, so the
        batch never fails and returns one record per request. */
    method SaveSeveralURL(dtos: seq<SaveShortURLDto>) returns (recs: seq<ShortenedURL>, err: Option<Error>)
      modifies this
      ensures err == None
      ensures |recs| == |dtos|
      ensures forall i :: 0 <= i < |dtos| ==> recs[i].originalURL == dtos[i].originalURL
      ensures OriginalsDistinct(old(structure)) ==>
                OriginalsDistinct(structure) && SaveMany(old(structure), dtos) == BatchOutcome(recs, structure)
    {
      recs := [];
      var i := 0;
      ghost var distinct := OriginalsDistinct(structure);
      assert dtos[..0] == [];
      while i < |dtos|
        invariant 0 <= i <= |dtos|
        invariant |recs| == i
        invariant forall j :: 0 <= j < i ==> recs[j].originalURL == dtos[j].originalURL
        invariant distinct == OriginalsDistinct(old(structure))
        invariant distinct ==>
                    OriginalsDistinct(structure) && SaveMany(old(structure), dtos[..i]) == BatchOutcome(recs, structure)
      {
        ghost var before := structure;
        var rec, e := SaveURL(dtos[i]);
        // SaveURL only ever reports URLConflict, which the batch accepts
        assert e == None || e == Some(URLConflict);
        if distinct {
          SaveManyExtend(old(structure), dtos, i, recs, before, SaveOutcome(rec, e, structure));
        }
        recs := recs + [rec];
        i := i + 1;
      }
      assert dtos[..i] == dtos;
      err := None;
    }

    /** Flags the listed codes owned by `userID` as deleted, exactly as DeleteCodes
        says; always succeeds. */
    method DeleteByShortURLs(shortURLs: seq<string>, userID: string) returns (err: Option<Error>)
      modifies this
      ensures err == None
      ensures structure == DeleteCodes(old(structure), shortURLs, userID)
    {
      var i := 0;
      while i < |shortURLs|
        invariant 0 <= i <= |shortURLs|
        invariant DeleteCodes(old(structure), shortURLs, userID) == DeleteCodes(structure, shortURLs[i..], userID)
      {
        assert shortURLs[i..][0] == shortURLs[i] && shortURLs[i..][1..] == shortURLs[i + 1..];
        var shortenedURL := if shortURLs[i] in structure then structure[shortURLs[i]] else Zero;
        if shortenedURL.userID == userID {
          structure := structure[shortURLs[i] := shortenedURL.(isDeleted := true)];
        }
        i := i + 1;
      }
      assert shortURLs[i..] == [];
      err := None;
    }

    /** Every task's codes, in order, as DeleteByShortURLs would; always succeeds. */
    method DoDeleteURLTasks(tasks: seq<DeleteURLsTask>) returns (err: Option<Error>)
      modifies this
      ensures err == None
      ensures structure == ApplyTasks(old(structure), tasks)
    {
      var t := 0;
      while t < |tasks|
        invariant 0 <= t <= |tasks|
        invariant ApplyTasks(old(structure), tasks) == ApplyTasks(structure, tasks[t..])
      {
        var task := tasks[t];
        assert tasks[t..][0] == task && tasks[t..][1..] == tasks[t + 1..];
        ghost var before := structure;
        var i := 0;
        while i < |task.shortURLs|
          invariant 0 <= i <= |task.shortURLs|
          invariant DeleteCodes(before, task.shortURLs, task.userID) == DeleteCodes(structure, task.shortURLs[i..], task.userID)
        {
          var shortURL := task.shortURLs[i];
          assert task.shortURLs[i..][0] == shortURL && task.shortURLs[i..][1..] == task.shortURLs[i + 1..];
          var shortenedURL := if shortURL in structure then structure[shortURL] else Zero;
          if shortenedURL.userID == task.userID {
            structure := structure[shortURL := shortenedURL.(isDeleted := true)];
          }
          i := i + 1;
        }
        assert task.shortURLs[i..] == [];
        t := t + 1;
      }
      assert tasks[t..] == [];
      err := None;
    }

    /** The store is always available. */
    method Ping() returns (err: Option<Error>)
      ensures err == None
    {
      err := None;
    }
  }
}
