/** The pure parts of the Postgres store: the multi-row INSERT statement and its
    argument list built by SaveSeveralURL, the array literal it selects the saved rows
    back with, and the way SaveURL turns the database's answer into a result. Running
    SQL is not modelled: the database's answer to SaveURL is a parameter. */
module DatabaseSql {
  import opened Domain
  import opened GoStrings

  const InsertPrefix: string := "INSERT INTO shorten_url (short_url, original_url, user_id) VALUES "
  const InsertSuffix: string := " ON CONFLICT (original_url) DO NOTHING"

  /** The SQLSTATE of a unique-index violation. */
  const PgUniqueIndexErrorCode: string := "23505"

  /** The `k`-th positional parameter, `$k`. */
  function Placeholder(k: nat): string
  {
    "$" + Decimal(k)
  }

  /** The parameter tuple of request `i`: its three columns are parameters 3i+1 to 3i+3. */
  function Tuple(i: nat): string
  {
    "(" + Placeholder(3 * i + 1) + ", " + Placeholder(3 * i + 2) + ", " + Placeholder(3 * i + 3) + ")"
  }

  function Tuples(n: nat): seq<string>
  {
    seq(n, (i: int) requires 0 <= i < n => Tuple(i))
  }

  /** The text of the batch insert for `n` requests: the fixed INSERT head, the `n`
      tuples separated by commas, and the fixed conflict clause at the end. */
  function InsertStatement(n: nat): string
  {
    InsertPrefix + Join(Tuples(n), ",") + InsertSuffix
  }

  /** The parameter values of the batch insert: per request, in input order, its short
      code, original URL and user id, so that parameter 3i+1+c of tuple `i` is column `c`
      of request `i`. */
  function InsertArgs(dtos: seq<SaveShortURLDto>): (vals: seq<string>)
    ensures |vals| == 3 * |dtos|
    decreases |dtos|
  {
    if dtos == [] then []
    else
      var d := dtos[|dtos| - 1];
      InsertArgs(dtos[..|dtos| - 1]) + [d.shortURL, d.originalURL, d.userID]
  }

  /** Parameter 3i+1+c is bound to column c of request i. */
  lemma {:induction false} InsertArgsBind(dtos: seq<SaveShortURLDto>, i: nat)
    requires i < |dtos|
    ensures var vals := InsertArgs(dtos);
            && vals[3 * i] == dtos[i].shortURL
            && vals[3 * i + 1] == dtos[i].originalURL
            && vals[3 * i + 2] == dtos[i].userID
    decreases |dtos|
  {
    var n := |dtos| - 1;
    if i < n {
      InsertArgsBind(dtos[..n], i);
    }
  }

  /** The original URLs of the requests, in input order. */
  function Originals(dtos: seq<SaveShortURLDto>): (urls: seq<string>)
    ensures |urls| == |dtos|
    decreases |dtos|
  {
    if dtos == [] then [] else Originals(dtos[..|dtos| - 1]) + [dtos[|dtos| - 1].originalURL]
  }

  lemma {:induction false} OriginalsAt(dtos: seq<SaveShortURLDto>, i: nat)
    requires i < |dtos|
    ensures Originals(dtos)[i] == dtos[i].originalURL
    decreases |dtos|
  {
    var n := |dtos| - 1;
    if i < n {
      OriginalsAt(dtos[..n], i);
    }
  }

  /** The text[] literal SaveSeveralURL selects the saved rows with: the URLs between
      braces, separated by commas, unquoted. */
  function ArrayLiteral(urls: seq<string>): string
  {
    "{" + Join(urls, ",") + "}"
  }

  /** Reading a parameter back: the number after `$` is the one it was printed from. */
  lemma PlaceholderRoundTrip(k: nat)
    ensures Placeholder(k)[0] == '$' && ParseDecimal(Placeholder(k)[1..]) == k
  {
    assert Placeholder(k)[1..] == Decimal(k);
    DecimalRoundTrip(k);
  }

  /** The length of the run of digits `s` starts with. */
  function DigitRun(s: string): nat
    decreases |s|
  {
    if s != [] && '0' <= s[0] <= '9' then 1 + DigitRun(s[1..]) else 0
  }

  lemma {:induction false} DigitRunOf(d: string, r: string)
    requires IsDigits(d) && (r == [] || !('0' <= r[0] <= '9'))
    ensures DigitRun(d + r) == |d|
    decreases |d|
  {
    if d != [] {
      assert (d + r)[1..] == d[1..] + r;
      DigitRunOf(d[1..], r);
    } else {
      assert d + r == r;
    }
  }

  /** What follows the first parameter number of tuple `i`. */
  function TupleRest(i: nat): string
  {
    ", " + Placeholder(3 * i + 2) + ", " + Placeholder(3 * i + 3) + ")"
  }

  lemma TupleShape(i: nat)
    ensures |Tuple(i)| >= 2 && Tuple(i)[2..] == Decimal(3 * i + 1) + TupleRest(i)
  {
    assert Tuple(i) == "($" + (Decimal(3 * i + 1) + TupleRest(i));
  }

  /** No two requests share a tuple text: the first parameter number tells them apart. */
  lemma TupleInjective(i: nat, j: nat)
    requires Tuple(i) == Tuple(j)
    ensures i == j
  {
    TupleShape(i);
    TupleShape(j);
    var d1, d2 := Decimal(3 * i + 1), Decimal(3 * j + 1);
    var s := Tuple(i)[2..];
    assert TupleRest(i)[0] == ',' && TupleRest(j)[0] == ',';
    DigitRunOf(d1, TupleRest(i));
    DigitRunOf(d2, TupleRest(j));
    assert d1 == s[..|d1|] && d2 == s[..|d2|];
    DecimalInjective(3 * i + 1, 3 * j + 1);
  }

  /** The select-back literal lists the requests' URLs in input order, one element per
      request, whenever no URL contains a comma. */
  lemma ArrayLiteralElements(dtos: seq<SaveShortURLDto>)
    requires dtos != []
    requires forall i :: 0 <= i < |dtos| ==> ',' !in dtos[i].originalURL
    ensures var lit := ArrayLiteral(Originals(dtos));
            && lit[0] == '{' && lit[|lit| - 1] == '}'
            && SplitOn(lit[1..|lit| - 1], ',') == Originals(dtos)
  {
    var lit := ArrayLiteral(Originals(dtos));
    assert lit[1..|lit| - 1] == Join(Originals(dtos), ",");
    forall i | 0 <= i < |dtos| ensures ',' !in Originals(dtos)[i] {
      OriginalsAt(dtos, i);
    }
    SplitJoin(Originals(dtos), ',');
  }

  /** The statement text after the tuples `parts` have been written, each followed by a
      comma while `more` tuples are to come. */
  function Partial(prefix: string, parts: seq<string>, more: bool): string
  {
    prefix + Join(parts, ",") + if parts != [] && more then "," else ""
  }

  /** One loop round: the next tuple and, unless it was the last, a comma. */
  lemma PartialSnoc(prefix: string, parts: seq<string>, t: string, more: bool)
    ensures Partial(prefix, parts, true) + t + (if more then "," else "") == Partial(prefix, parts + [t], more)
  {
    if parts != [] {
      JoinSnoc(parts, ",", t);
      assert Partial(prefix, parts, true) + t == prefix + (Join(parts, ",") + "," + t);
    } else {
      assert parts + [t] == [t];
    }
  }

  lemma TuplesSnoc(n: nat)
    ensures Tuples(n + 1) == Tuples(n) + [Tuple(n)]
  {
  }

  /** Round `i` of `n` turns the text after `i` tuples into the text after `i + 1`. */
  lemma PartialNext(buffer: string, prefix: string, i: nat, n: nat)
    requires i < n && buffer == Partial(prefix, Tuples(i), true)
    ensures i + 1 < n ==> buffer + Tuple(i) + "," == Partial(prefix, Tuples(i + 1), true)
    ensures i + 1 == n ==> buffer + Tuple(i) == Partial(prefix, Tuples(i + 1), false)
  {
    TuplesSnoc(i);
    PartialSnoc(prefix, Tuples(i), Tuple(i), i + 1 < n);
    assert buffer + Tuple(i) + "" == buffer + Tuple(i);
  }

  /** After the last round no separator is pending. */
  lemma PartialDone(prefix: string, parts: seq<string>, suffix: string)
    ensures Partial(prefix, parts, false) + suffix == prefix + Join(parts, ",") + suffix
  {
    assert prefix + Join(parts, ",") + "" == prefix + Join(parts, ",");
  }

  /** The statement, the argument list and the select-back literal of SaveSeveralURL,
      built in one pass over the requests. */
  method BuildSaveSeveral(dtos: seq<SaveShortURLDto>) returns (stmt: string, vals: seq<string>, literal: string)
    ensures stmt == InsertStatement(|dtos|)
    ensures vals == InsertArgs(dtos)
    ensures literal == ArrayLiteral(Originals(dtos))
  {
    var originalUrls: seq<string> := [];
    var buffer := InsertPrefix;
    vals := [];
    var idx := 0;
    assert Tuples(0) == [];
    while idx < |dtos|
      invariant 0 <= idx <= |dtos|
      invariant buffer == Partial(InsertPrefix, Tuples(idx), idx < |dtos|)
      invariant vals == InsertArgs(dtos[..idx])
      invariant originalUrls == Originals(dtos[..idx])
    {
      var dto := dtos[idx];
      var t := Tuple(idx);
      PartialNext(buffer, InsertPrefix, idx, |dtos|);
      buffer := buffer + t;
      if idx + 1 != |dtos| {
        buffer := buffer + ",";
      }
      vals := vals + [dto.shortURL, dto.originalURL, dto.userID];
      originalUrls := originalUrls + [dto.originalURL];
      assert dtos[..idx + 1][..idx] == dtos[..idx];
      idx := idx + 1;
    }
    assert dtos[..idx] == dtos;
    PartialDone(InsertPrefix, Tuples(|dtos|), InsertSuffix);
    stmt := buffer + InsertSuffix;
    literal := "{" + Join(originalUrls, ",") + "}";
  }

  /** What QueryRowContext for SaveURL yields: the row carries an error, the row cannot
      be scanned, or the returned columns (id, short code, owner, original URL). */
  datatype RowOutcome =
    | RowFailed(rowErr: DbError)
    | ScanFailed(scanErr: DbError)
    | Returned(id: int, shortURL: string, userID: string, originalURL: string)

  /** SaveURL's classification. The insert returns the stored row even when the
      original URL already existed; a row whose code differs from the proposed one is
      therefore returned with RowConflict. A unique-index violation (the proposed code
      is taken) is ShortURLConflict; every other error is passed through. */
  function ClassifySaveURL(dto: SaveShortURLDto, outcome: RowOutcome): (r: (Option<ShortenedURL>, Option<Error>))
    ensures r.1 == None <==> outcome.Returned? && outcome.shortURL == dto.shortURL
    ensures r.0.Some? <==> outcome.Returned?
    ensures outcome.Returned? ==>
              r.0 == Some(ShortenedURL(outcome.id, outcome.shortURL, outcome.originalURL, outcome.userID, false))
    ensures r.1 == Some(RowConflict) <==> outcome.Returned? && outcome.shortURL != dto.shortURL
    ensures r.1 == Some(ShortURLConflict) <==> outcome == RowFailed(PgError(PgUniqueIndexErrorCode))
    ensures outcome.RowFailed? && outcome.rowErr != PgError(PgUniqueIndexErrorCode) ==> r.1 == Some(Backend(outcome.rowErr))
    ensures outcome.ScanFailed? ==> r.1 == Some(Backend(outcome.scanErr))
  {
    match outcome
    case RowFailed(e) =>
      if e.PgError? && e.code == PgUniqueIndexErrorCode then (None, Some(ShortURLConflict))
      else (None, Some(Backend(e)))
    case ScanFailed(e) => (None, Some(Backend(e)))
    case Returned(id, shortURL, userID, originalURL) =>
      var rec := ShortenedURL(id, shortURL, originalURL, userID, false);
      if dto.shortURL != rec.shortURL then (Some(rec), Some(RowConflict)) else (Some(rec), None)
  }
}
