/** The file-backed store: the same map as the in-memory store, plus a snapshot of the
    whole map written to the file after every successful mutation when the file could
    be opened. The file itself and JSON are not modelled: `saves` lists the snapshots
    written, in order. */
module FileBacked {
  import opened Domain
  import opened UrlTable

  class FileStorage {
    var structure: Table
    const savingChanges: bool
    var saves: seq<Table>

    /** NewFileStorage. `fileOpened` is whether the file at a non-empty path could be opened
        or created, and `contents` what parsing it yields (None when reading or
        decoding fails, which leaves the map empty). Changes are saved exactly when the
        path is non-empty and the file was opened. */
    constructor (fileStoragePath: string, fileOpened: bool, contents: Option<Table>)
      ensures savingChanges == (fileStoragePath != "" && fileOpened)
      ensures structure == if savingChanges && contents.Some? then contents.value else map[]
      ensures saves == []
    {
      var saving := false;
      if fileStoragePath != "" {
        if fileOpened {
          saving := true;
        }
      }
      savingChanges := saving;
      structure := map[];
      saves := [];
      new;
      if savingChanges {
        ParseFromFile(contents);
      }
    }

    /** parseFromFile: the entries of a decoded file are merged into the map, a decoded
        key replacing the entry under it; a failed read or decode leaves the map. */
    method ParseFromFile(contents: Option<Table>)
      modifies this`structure
      ensures structure == if contents.Some? then old(structure) + contents.value else old(structure)
    {
      if contents.Some? {
        structure := structure + contents.value;
      }
    }

    /** saveToFile: the whole current map is written out. */
    method SaveToFile()
      modifies this`saves
      ensures saves == old(saves) + [structure]
    {
      saves := saves + [structure];
    }

    /** The stored record exactly when the code is a key; URLNotFound otherwise. */
    method GetByShortURL(shortURL: string) returns (r: Result<ShortenedURL>)
      ensures r.Success? <==> shortURL in structure
      ensures r.Success? ==> r.value == structure[shortURL]
      ensures r.Failure? ==> r.error == URLNotFound
    {
      if shortURL in structure {
        r := Success(structure[shortURL]);
      } else {
        r := Failure(URLNotFound);
      }
    }

    /** The records owned by `userID`, each exactly once (see the in-memory store). */
    method GetURLsByUserID(userID: string) returns (urls: seq<ShortenedURL>, err: Option<Error>, ghost keys: seq<string>)
      ensures err == None
      ensures |keys| == |urls|
      ensures forall i :: 0 <= i < |keys| ==> keys[i] in structure && urls[i] == structure[keys[i]]
      ensures forall i, j :: 0 <= i < j < |keys| ==> keys[i] != keys[j]
      ensures forall k :: k in structure && structure[k].userID == userID <==> k in keys
    {
      urls, keys := [], [];
      var rest := structure.Keys;
      while rest != {}
        invariant rest <= structure.Keys
        invariant |keys| == |urls|
        invariant forall i :: 0 <= i < |keys| ==> keys[i] in structure && keys[i] !in rest && urls[i] == structure[keys[i]]
        invariant forall i, j :: 0 <= i < j < |keys| ==> keys[i] != keys[j]
        invariant forall k :: k in structure && structure[k].userID == userID && k !in rest <==> k in keys
        decreases rest
      {
        var k :| k in rest;
        if structure[k].userID == userID {
          urls := urls + [structure[k]];
          keys := keys + [k];
        }
        rest := rest - {k};
      }
      err := None;
    }

    /** Some record with this original URL, or no record and URLNotFound. */
    method FindByOriginalURL(originalURL: string) returns (found: Option<ShortenedURL>, err: Option<Error>)
      ensures err == None || err == Some(URLNotFound)
      ensures err == None <==> found.Some?
      ensures found.Some? <==> HasOriginal(structure, originalURL)
      ensures found.Some? ==> found.value in structure.Values && found.value.originalURL == originalURL
      ensures OriginalsDistinct(structure) ==> FindOriginal(structure, originalURL) == found
    {
      var rest := structure.Keys;
      while rest != {}
        invariant rest <= structure.Keys
        invariant forall k :: k in structure && k !in rest ==> structure[k].originalURL != originalURL
        decreases rest
      {
        var k :| k in rest;
        if structure[k].originalURL == originalURL {
          if OriginalsDistinct(structure) {
            FindOriginalUnique(structure, k);
          }
          return Some(structure[k]), None;
        }
        rest := rest - {k};
      }
      return None, Some(URLNotFound);
    }

    /** As the in-memory SaveURL; a new record is also saved to the file. */
    method SaveURL(dto: SaveShortURLDto) returns (rec: ShortenedURL, err: Option<Error>)
      modifies this`structure, this`saves
      ensures rec.originalURL == dto.originalURL
      ensures err == Some(URLConflict) <==> HasOriginal(old(structure), dto.originalURL)
      ensures err == Some(URLConflict) ==>
                rec in old(structure).Values && structure == old(structure) && saves == old(saves)
      ensures err != Some(URLConflict) ==>
                && err == None && rec == NewRecord(old(structure), dto)
                && structure == old(structure)[dto.shortURL := rec]
                && saves == old(saves) + if savingChanges then [structure] else []
      ensures OriginalsDistinct(old(structure)) ==> SaveOne(old(structure), dto) == SaveOutcome(rec, err, structure)
    {
      var existing, findErr := FindByOriginalURL(dto.originalURL);
      if findErr == None {
        return existing.value, Some(URLConflict);
      }
      rec := NewRecord(structure, dto);
      structure := structure[dto.shortURL := rec];
      if savingChanges {
        SaveToFile();
      }
      err := None;
    }

    /** One request of SaveSeveralURL: looked up and, when its URL is not stored yet,
        inserted without saving the file. */
    method InsertMissing(dto: SaveShortURLDto) returns (rec: ShortenedURL, conflict: bool)
      modifies this`structure
      ensures rec.originalURL == dto.originalURL
      ensures conflict <==> HasOriginal(old(structure), dto.originalURL)
      ensures conflict ==> rec in old(structure).Values && structure == old(structure)
      ensures !conflict ==> rec == NewRecord(old(structure), dto) && structure == old(structure)[dto.shortURL := rec]
      ensures OriginalsDistinct(old(structure)) ==>
                SaveOne(old(structure), dto) == SaveOutcome(rec, if conflict then Some(URLConflict) else None, structure)
    {
      var shortenedURL, findErr := FindByOriginalURL(dto.originalURL);
      conflict := findErr == None;
      if conflict {
        rec := shortenedURL.value;
      } else {
        rec := NewRecord(structure, dto);
        structure := structure[dto.shortURL := rec];
      }
    }

    /** Each request is looked up and, when its URL is not stored yet, inserted; the
        file is saved once after the whole batch. Never fails. */
    method SaveSeveralURL(dtos: seq<SaveShortURLDto>) returns (recs: seq<ShortenedURL>, err: Option<Error>)
      modifies this`structure, this`saves
      ensures err == None
      ensures |recs| == |dtos|
      ensures forall i :: 0 <= i < |dtos| ==> recs[i].originalURL == dtos[i].originalURL
      ensures saves == old(saves) + if savingChanges then [structure] else []
      ensures OriginalsDistinct(old(structure)) ==>
                OriginalsDistinct(structure) && SaveMany(old(structure), dtos) == BatchOutcome(recs, structure)
    {
      recs := [];
      var i := 0;
      ghost var distinct := OriginalsDistinct(structure);
      assert dtos[..0] == [];
      while i < |dtos|
        invariant 0 <= i <= |dtos|
        invariant saves == old(saves)
        invariant |recs| == i
        invariant forall j :: 0 <= j < i ==> recs[j].originalURL == dtos[j].originalURL
        invariant distinct == OriginalsDistinct(old(structure))
        invariant distinct ==>
                    OriginalsDistinct(structure) && SaveMany(old(structure), dtos[..i]) == BatchOutcome(recs, structure)
      {
        ghost var before := structure;
        var rec, conflict := InsertMissing(dtos[i]);
        if distinct {
          SaveManyExtend(old(structure), dtos, i, recs, before, SaveOutcome(rec, if conflict then Some(URLConflict) else None, structure));
        }
        recs := recs + [rec];
        i := i + 1;
      }
      assert dtos[..i] == dtos;
      if savingChanges {
        SaveToFile();
      }
      err := None;
    }

    /** As the in-memory DeleteByShortURLs, then the file is saved. */
    method DeleteByShortURLs(shortURLs: seq<string>, userID: string) returns (err: Option<Error>)
      modifies this`structure, this`saves
      ensures err == None
      ensures structure == DeleteCodes(old(structure), shortURLs, userID)
      ensures saves == old(saves) + if savingChanges then [structure] else []
    {
      var i := 0;
      while i < |shortURLs|
        invariant 0 <= i <= |shortURLs|
        invariant saves == old(saves)
        invariant DeleteCodes(old(structure), shortURLs, userID) == DeleteCodes(structure, shortURLs[i..], userID)
      {
        assert shortURLs[i..][0] == shortURLs[i] && shortURLs[i..][1..] == shortURLs[i + 1..];
        var shortenedURL := if shortURLs[i] in structure then structure[shortURLs[i]] else Zero;
        if shortenedURL.userID == userID {
          structure := structure[shortURLs[i] := shortenedURL.(isDeleted := true)];
        }
        i := i + 1;
      }
      assert shortURLs[i..] == [];
      if savingChanges {
        SaveToFile();
      }
      err := None;
    }

    /** As the in-memory DoDeleteURLTasks, then the file is saved. */
    method DoDeleteURLTasks(tasks: seq<DeleteURLsTask>) returns (err: Option<Error>)
      modifies this`structure, this`saves
      ensures err == None
      ensures structure == ApplyTasks(old(structure), tasks)
      ensures saves == old(saves) + if savingChanges then [structure] else []
    {
      var t := 0;
      while t < |tasks|
        invariant 0 <= t <= |tasks|
        invariant saves == old(saves)
        invariant ApplyTasks(old(structure), tasks) == ApplyTasks(structure, tasks[t..])
      {
        var task := tasks[t];
        assert tasks[t..][0] == task && tasks[t..][1..] == tasks[t + 1..];
        ghost var before := structure;
        var i := 0;
        while i < |task.shortURLs|
          invariant 0 <= i <= |task.shortURLs|
          invariant saves == old(saves)
          invariant DeleteCodes(before, task.shortURLs, task.userID) == DeleteCodes(structure, task.shortURLs[i..], task.userID)
        {
          var shortURL := task.shortURLs[i];
          assert task.shortURLs[i..][0] == shortURL && task.shortURLs[i..][1..] == task.shortURLs[i + 1..];
          var shortenedURL := if shortURL in structure then structure[shortURL] else Zero;
          if shortenedURL.userID == task.userID {
            structure := structure[shortURL := shortenedURL.(isDeleted := true)];
          }
          i := i + 1;
        }
        assert task.shortURLs[i..] == [];
        t := t + 1;
      }
      assert tasks[t..] == [];
      if savingChanges {
        SaveToFile();
      }
      err := None;
    }

    /** The store is always available. */
    method Ping() returns (err: Option<Error>)
      ensures err == None
    {
      err := None;
    }
  }
}
