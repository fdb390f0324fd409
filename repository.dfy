/**
 * The gateway's embedding repository: a metadata table keyed by
 * (sequence hash, model id), two vector tables keyed by metadata id (one per
 * model size), and the queries over them. SQL is modelled by its effect on
 * the tables: an upsert either updates the conflicting row or appends a row
 * with the next serial id. Table order is insertion order.
 */
module Repository {
  import opened Wrappers

  // ---------------------------------------------------------------------------
  // Rows

  /**
   * A JSONB column as the driver reads it back: None (SQL NULL or JSON
   * `null`), a JSON string, or a JSON list of strings.
   */
  datatype Column = Null | Text(text: string) | Items(items: seq<string>)

  datatype Meta = Meta(
    id: nat, hash: string, modelId: string, confidence: real, isFallback: bool,
    sequenceText: Option<string>, accession: Option<string>, name: Option<string>,
    organism: Option<string>, functionText: Option<string>,
    bindingSites: Column, pdbIds: Column)

  /** A list-valued key of `biological_data`: missing, present with None, or a list. */
  datatype ListField = Missing | NoneValue | Listed(items: seq<string>)

  /** The `sequence` key of `biological_data`: missing, present with None, or a string. */
  datatype SequenceField = NoSequence | NullSequence | Sequence(text: string)

  /**
   * `biological_data`. `sequence` is read by subscript, so a missing key
   * differs from a None value. The other scalar keys are read with
   * `.get(key)`, which gives None both for a missing key and for a None
   * value, so an Option is enough for them.
   */
  datatype Bio = Bio(
    sequence: SequenceField, accession: Option<string>, name: Option<string>,
    organism: Option<string>, functionText: Option<string>,
    annotations: ListField, pdbIds: ListField)

  /** `biological_data['sequence']` where it does not raise: None becomes SQL NULL. */
  function SequenceColumn(f: SequenceField): (r: Option<string>)
    requires !f.NoSequence?
    ensures r.None? <==> f.NullSequence?
    ensures f.Sequence? ==> r == Some(f.text)
  {
    if f.Sequence? then Some(f.text) else None
  }

  /** The `vector_data` argument: JSON text, or the vector itself. */
  datatype VectorData = VectorText(text: string) | VectorList(items: seq<real>)

  /**
   * `json.loads(vector_data) if isinstance(vector_data, str) else vector_data`.
   * `loads` stands for `json.loads`; None is its `JSONDecodeError`.
   */
  function VectorOf(d: VectorData, loads: string -> Option<seq<real>>): (r: Option<seq<real>>)
    ensures d.VectorList? ==> r == Some(d.items)
    ensures d.VectorText? ==> r == loads(d.text)
  {
    match d
    case VectorText(text) => loads(text)
    case VectorList(items) => Some(items)
  }

  /** `json.dumps(d.get(key, []))`: a missing key is stored as `[]`, a None value as JSON `null`. */
  function Dumped(f: ListField): Column {
    match f
    case Missing => Items([])
    case NoneValue => Null
    case Listed(items) => Items(items)
  }

  predicate HasKey(row: Meta, hash: string, modelId: string) {
    row.hash == hash && row.modelId == modelId
  }

  /** The position of the row with key (hash, modelId), if any. */
  function FindRow(rows: seq<Meta>, hash: string, modelId: string): (r: Option<nat>)
    ensures r.Some? ==> r.value < |rows| && HasKey(rows[r.value], hash, modelId)
    ensures r.None? <==> forall i | 0 <= i < |rows| :: !HasKey(rows[i], hash, modelId)
  {
    if rows == [] then None
    else if HasKey(rows[|rows| - 1], hash, modelId) then Some(|rows| - 1)
    else FindRow(rows[..|rows| - 1], hash, modelId)
  }

  /** The metadata table's constraints: one row per key, ids distinct and below the next serial value. */
  predicate ValidRows(rows: seq<Meta>, nextId: nat) {
    && (forall i, j | 0 <= i < j < |rows| :: !HasKey(rows[j], rows[i].hash, rows[i].modelId))
    && (forall i, j | 0 <= i < j < |rows| :: rows[i].id != rows[j].id)
    && (forall i | 0 <= i < |rows| :: rows[i].id < nextId)
  }

  /** The row `store_rich_embedding` inserts. */
  function NewRow(id: nat, hash: string, modelId: string, confidence: real, isFallback: bool, sequence: Option<string>, bio: Bio): Meta {
    Meta(id, hash, modelId, confidence, isFallback, sequence, bio.accession, bio.name, bio.organism, bio.functionText,
         Dumped(bio.annotations), Dumped(bio.pdbIds))
  }

  /** `ON CONFLICT (sequence_hash, model_id) DO UPDATE`: only five columns take the new values. */
  function Merge(prior: Meta, incoming: Meta): (r: Meta)
    ensures r.id == prior.id && r.hash == prior.hash && r.modelId == prior.modelId
    ensures r.sequenceText == prior.sequenceText && r.accession == prior.accession
    ensures r.organism == prior.organism && r.functionText == prior.functionText
    ensures r.confidence == incoming.confidence && r.isFallback == incoming.isFallback
    ensures r.name == incoming.name && r.pdbIds == incoming.pdbIds && r.bindingSites == incoming.bindingSites
  {
    prior.(confidence := incoming.confidence, isFallback := incoming.isFallback, name := incoming.name,
         pdbIds := incoming.pdbIds, bindingSites := incoming.bindingSites)
  }

  /**
   * The metadata upsert: the new rows, the id `RETURNING id` gives, and the
   * next serial value.
   */
  function Upsert(rows: seq<Meta>, nextId: nat, incoming: Meta): (r: (seq<Meta>, nat, nat))
    ensures match FindRow(rows, incoming.hash, incoming.modelId)
      case Some(i) => r == (rows[i := Merge(rows[i], incoming)], rows[i].id, nextId)
      case None => r == (rows + [incoming.(id := nextId)], nextId, nextId + 1)
  {
    match FindRow(rows, incoming.hash, incoming.modelId)
    case Some(i) => (rows[i := Merge(rows[i], incoming)], rows[i].id, nextId)
    case None => (rows + [incoming.(id := nextId)], nextId, nextId + 1)
  }

  /** The upsert keeps the table's constraints, and the returned id is that of the row now holding the key. */
  lemma UpsertValid(rows: seq<Meta>, nextId: nat, incoming: Meta)
    requires ValidRows(rows, nextId)
    ensures var (rows', id, nextId') := Upsert(rows, nextId, incoming);
      && ValidRows(rows', nextId')
      && (exists i | 0 <= i < |rows'| :: rows'[i].id == id && HasKey(rows'[i], incoming.hash, incoming.modelId))
      && |rows'| == |rows| + (if FindRow(rows, incoming.hash, incoming.modelId).Some? then 0 else 1)
      && forall i | 0 <= i < |rows| && !HasKey(rows[i], incoming.hash, incoming.modelId) :: rows'[i] == rows[i]
  {
    var r := Upsert(rows, nextId, incoming);
    match FindRow(rows, incoming.hash, incoming.modelId) {
      case Some(k) =>
        UpdateValid(rows, nextId, k, incoming);
        assert r.0 == rows[k := Merge(rows[k], incoming)] && r.1 == rows[k].id;
        assert r.0[k].id == r.1 && HasKey(r.0[k], incoming.hash, incoming.modelId);
      case None =>
        AppendValid(rows, nextId, incoming);
        assert r.0 == rows + [incoming.(id := nextId)] && r.1 == nextId;
        assert r.0[|rows|].id == r.1 && HasKey(r.0[|rows|], incoming.hash, incoming.modelId);
    }
  }

  lemma UpdateValid(rows: seq<Meta>, nextId: nat, k: nat, incoming: Meta)
    requires ValidRows(rows, nextId) && k < |rows| && HasKey(rows[k], incoming.hash, incoming.modelId)
    ensures var rows' := rows[k := Merge(rows[k], incoming)];
      && ValidRows(rows', nextId)
      && rows'[k].id == rows[k].id && HasKey(rows'[k], incoming.hash, incoming.modelId)
      && forall i | 0 <= i < |rows| && i != k :: rows'[i] == rows[i]
  {
    var rows' := rows[k := Merge(rows[k], incoming)];
    assert forall i | 0 <= i < |rows| :: rows'[i].hash == rows[i].hash && rows'[i].modelId == rows[i].modelId && rows'[i].id == rows[i].id;
  }

  lemma AppendValid(rows: seq<Meta>, nextId: nat, incoming: Meta)
    requires ValidRows(rows, nextId) && forall i | 0 <= i < |rows| :: !HasKey(rows[i], incoming.hash, incoming.modelId)
    ensures ValidRows(rows + [incoming.(id := nextId)], nextId + 1)
  {
  }

  // ---------------------------------------------------------------------------
  // The vector tables

  datatype VectorTable = Esm2_8M | Esm2_650M

  /** `s` holds `sub` as a contiguous part, as Python's `sub in s`. */
  predicate Contains(s: string, sub: string) {
    exists i | 0 <= i <= |s| - |sub| :: OccursAt(s, sub, i)
  }

  predicate OccursAt(s: string, sub: string, i: int)
    requires 0 <= i <= |s| - |sub|
  {
    s[i..i + |sub|] == sub
  }

  /** The table `store_rich_embedding` writes to. */
  function WriteTable(modelId: string): VectorTable {
    if Contains(modelId, "8M") then Esm2_8M else Esm2_650M
  }

  /** The table `find_similar` reads from. */
  function SearchTable(modelId: string): VectorTable {
    if Contains(modelId, "650M") then Esm2_650M else Esm2_8M
  }

  /** Writes and searches meet in the same table iff the model id names exactly one of the two sizes. */
  lemma TablesAgreeIff(modelId: string)
    ensures WriteTable(modelId) == SearchTable(modelId) <==> (Contains(modelId, "8M") != Contains(modelId, "650M"))
  {
  }

  /** The two ESM-2 model ids of the worker and the gateway each land in their own table on both paths. */
  lemma KnownModelsAgree()
    ensures WriteTable("esm2_t33_650M_UR50D") == SearchTable("esm2_t33_650M_UR50D") == Esm2_650M
    ensures WriteTable("esm2_t6_8M_UR50D") == SearchTable("esm2_t6_8M_UR50D") == Esm2_8M
  {
    var big, small := "esm2_t33_650M_UR50D", "esm2_t6_8M_UR50D";
    assert OccursAt(big, "650M", 9);
    NotContains8M(big);
    assert OccursAt(small, "8M", 8);
    NotContains650M(small);
  }

  lemma NotContains8M(s: string)
    requires s == "esm2_t33_650M_UR50D"
    ensures !Contains(s, "8M")
  {
    forall i | 0 <= i <= |s| - 2 ensures !OccursAt(s, "8M", i) {
      assert s[i..i + 2][0] == s[i] != '8';
    }
  }

  lemma NotContains650M(s: string)
    requires s == "esm2_t6_8M_UR50D"
    ensures !Contains(s, "650M")
  {
    forall i | 0 <= i <= |s| - 4 ensures !OccursAt(s, "650M", i) {
      assert s[i..i + 4][0] == s[i] && s[i..i + 4][1] == s[i + 1];
      assert s[i] != '6' || s[i + 1] != '5';
    }
  }

  // ---------------------------------------------------------------------------
  // Reading rows back

  /** `json.loads` on a stored JSON string; the JSON grammar is not modelled. */
  function DecodeColumn(c: Column, loads: string -> seq<string>): (r: Column)
    ensures c.Text? && c.text != "" ==> r == Items(loads(c.text))
    ensures !(c.Text? && c.text != "") ==> r == c
  {
    if c.Text? && c.text != "" then Items(loads(c.text)) else c
  }

  datatype FixedKey = PdbIds | BindingSites

  /** The first row with the accession, in table order. */
  function FirstWithAccession(rows: seq<Meta>, accession: string): (r: Option<Meta>)
    ensures r.Some? <==> exists i | 0 <= i < |rows| :: rows[i].accession == Some(accession)
    ensures r.Some? ==> r.value in rows && r.value.accession == Some(accession)
  {
    if rows == [] then None
    else if rows[0].accession == Some(accession) then Some(rows[0])
    else
      var r := FirstWithAccession(rows[1..], accession);
      assert forall i | 1 <= i < |rows| :: rows[i] == rows[1..][i - 1];
      r
  }

  /** A `find_similar` result row. */
  datatype Similar = Similar(accession: Option<string>, name: Option<string>, organism: Option<string>, isFallback: bool, distance: real)

  /** The join: every metadata row of the model with a vector in the table, with its distance to `vector`. */
  function Candidates(rows: seq<Meta>, table: map<nat, seq<real>>, modelId: string, vector: seq<real>, distance: (seq<real>, seq<real>) -> real): (r: seq<Similar>)
    ensures |r| <= |rows|
  {
    if rows == [] then []
    else
      var rest := Candidates(rows[1..], table, modelId, vector, distance);
      if rows[0].modelId == modelId && rows[0].id in table then
        [SimilarOf(rows[0], distance(table[rows[0].id], vector))] + rest
      else rest
  }

  function SimilarOf(m: Meta, d: real): Similar {
    Similar(m.accession, m.name, m.organism, m.isFallback, d)
  }

  /** Whether `x` is the join row of a metadata row of the model that has a vector in the table. */
  predicate FromModelRow(rows: seq<Meta>, table: map<nat, seq<real>>, modelId: string, vector: seq<real>, distance: (seq<real>, seq<real>) -> real, x: Similar) {
    exists i | 0 <= i < |rows| :: JoinedAt(rows, table, modelId, vector, distance, x, i)
  }

  predicate JoinedAt(rows: seq<Meta>, table: map<nat, seq<real>>, modelId: string, vector: seq<real>, distance: (seq<real>, seq<real>) -> real, x: Similar, i: int)
    requires 0 <= i < |rows|
  {
    rows[i].modelId == modelId && rows[i].id in table && x == SimilarOf(rows[i], distance(table[rows[i].id], vector))
  }

  /** Every candidate comes from a row of the requested model that has a vector: `WHERE m.model_id = %s` and the join. */
  lemma {:induction false} CandidatesFromModelRows(rows: seq<Meta>, table: map<nat, seq<real>>, modelId: string, vector: seq<real>, distance: (seq<real>, seq<real>) -> real)
    ensures forall x | x in Candidates(rows, table, modelId, vector, distance) :: FromModelRow(rows, table, modelId, vector, distance, x)
  {
    if rows != [] {
      var rest := rows[1..];
      CandidatesFromModelRows(rest, table, modelId, vector, distance);
      forall x | x in Candidates(rows, table, modelId, vector, distance) ensures FromModelRow(rows, table, modelId, vector, distance, x) {
        if x in Candidates(rest, table, modelId, vector, distance) {
          var i :| 0 <= i < |rest| && JoinedAt(rest, table, modelId, vector, distance, x, i);
          assert JoinedAt(rows, table, modelId, vector, distance, x, i + 1);
        } else {
          assert JoinedAt(rows, table, modelId, vector, distance, x, 0);
        }
      }
    }
  }

  predicate SortedByDistance(s: seq<Similar>) {
    forall i, j | 0 <= i < j < |s| :: s[i].distance <= s[j].distance
  }

  function Insert(x: Similar, s: seq<Similar>): (r: seq<Similar>)
    requires SortedByDistance(s)
    ensures |r| == |s| + 1 && SortedByDistance(r) && multiset(r) == multiset(s) + multiset{x}
    ensures r[0] == x || (s != [] && r[0] == s[0])
  {
    if s == [] || x.distance <= s[0].distance then [x] + s
    else
      var rest := Insert(x, s[1..]);
      assert s == [s[0]] + s[1..];
      [s[0]] + rest
  }

  /** `ORDER BY distance ASC`; rows at equal distance may come in any order, and this is one of them. */
  function SortByDistance(s: seq<Similar>): (r: seq<Similar>)
    ensures SortedByDistance(r) && multiset(r) == multiset(s)
  {
    if s == [] then []
    else
      assert s == s[..|s| - 1] + [s[|s| - 1]];
      Insert(s[|s| - 1], SortByDistance(s[..|s| - 1]))
  }

  /** `LIMIT n`. */
  function Limit<T>(s: seq<T>, n: nat): (r: seq<T>)
    ensures |r| == if n < |s| then n else |s|
    ensures r == s[..|r|]
  {
    if n < |s| then s[..n] else s
  }

  /**
   * `find_similar` returns at most `limit` results, all from rows of the
   * model, nearest first, and none left out is nearer than one returned.
   */
  lemma FindSimilarShape(rows: seq<Meta>, table: map<nat, seq<real>>, modelId: string, vector: seq<real>, distance: (seq<real>, seq<real>) -> real, limit: nat)
    ensures var all := SortByDistance(Candidates(rows, table, modelId, vector, distance));
      var r := Limit(all, limit);
      && |r| <= limit && SortedByDistance(r)
      && (limit <= |all| ==> |r| == limit)
      && multiset(r) <= multiset(Candidates(rows, table, modelId, vector, distance))
      && forall k, j | 0 <= k < |r| <= j < |all| :: r[k].distance <= all[j].distance
  {
    var cands := Candidates(rows, table, modelId, vector, distance);
    LimitOfSorted(SortByDistance(cands), limit);
  }

  lemma LimitOfSorted(all: seq<Similar>, limit: nat)
    requires SortedByDistance(all)
    ensures var r := Limit(all, limit);
      && SortedByDistance(r) && multiset(r) <= multiset(all)
      && forall k, j | 0 <= k < |r| <= j < |all| :: r[k].distance <= all[j].distance
  {
    var r := Limit(all, limit);
    assert all == r + all[|r|..];
    assert multiset(all) == multiset(r) + multiset(all[|r|..]);
    forall k, j | 0 <= k < |r| <= j < |all| ensures r[k].distance <= all[j].distance {
      assert r[k] == all[k];
    }
  }

  /** A `get_all_summaries` row. */
  datatype Summary = Summary(accession: Option<string>, name: Option<string>, organism: Option<string>, isFallback: bool, modelId: string)

  function SummaryOf(m: Meta): Summary {
    Summary(m.accession, m.name, m.organism, m.isFallback, m.modelId)
  }

  /** The defaults of `get_all_summaries(limit=100)` and `find_similar(..., limit=5)`. */
  const DefaultSummaryLimit: nat := 100
  const DefaultSimilarLimit: nat := 5

  // ---------------------------------------------------------------------------
  // The repository

  class EmbeddingRepository {
    var rows: seq<Meta>
    var nextId: nat
    var vec8m: map<nat, seq<real>>
    var vec650m: map<nat, seq<real>>

    predicate Valid()
      reads this
    {
      ValidRows(rows, nextId)
    }

    constructor ()
      ensures Valid() && rows == [] && nextId == 1 && vec8m == map[] && vec650m == map[]
    {
      rows := [];
      nextId := 1;
      vec8m := map[];
      vec650m := map[];
    }

    function Table(t: VectorTable): map<nat, seq<real>>
      reads this
    {
      if t == Esm2_8M then vec8m else vec650m
    }

    /**
     * `store_rich_embedding`: the decoding of `vector_data`, the metadata
     * upsert, then the vector upsert into the model's table under the
     * returned id. Text that does not decode raises `JSONDecodeError`, and
     * then a missing `sequence` key raises `KeyError`, both before anything
     * is written; a `sequence` of None
     * is stored as a NULL `sequence_text`. `r` is the id the metadata
     * upsert's `RETURNING id` yields, which the Python method uses for the
     * vector row and then drops: it returns None.
     */
    method StoreRichEmbedding(hash: string, modelId: string, vectorData: VectorData, bio: Bio, confidence: real,
                              loads: string -> Option<seq<real>>, isFallback: bool := false)
      returns (r: Result<nat, string>)
      requires Valid()
      modifies this
      ensures Valid()
      ensures VectorOf(vectorData, loads).None? ==> r == Failure("vector_data") && unchanged(this)
      ensures VectorOf(vectorData, loads).Some? && bio.sequence.NoSequence? ==> r == Failure("sequence") && unchanged(this)
      ensures VectorOf(vectorData, loads).Some? && !bio.sequence.NoSequence? ==>
        var (rows', id, nextId') := Upsert(old(rows), old(nextId), NewRow(0, hash, modelId, confidence, isFallback, SequenceColumn(bio.sequence), bio));
        && r == Success(id) && rows == rows' && nextId == nextId'
        && Table(WriteTable(modelId)) == old(Table(WriteTable(modelId)))[id := VectorOf(vectorData, loads).value]
        && (WriteTable(modelId) == Esm2_8M ==> vec650m == old(vec650m))
        && (WriteTable(modelId) == Esm2_650M ==> vec8m == old(vec8m))
    {
      var vector := VectorOf(vectorData, loads);
      if vector.None? {
        return Failure("vector_data");
      }
      if bio.sequence.NoSequence? {
        return Failure("sequence");
      }
      var incoming := NewRow(0, hash, modelId, confidence, isFallback, SequenceColumn(bio.sequence), bio);
      UpsertValid(rows, nextId, incoming);
      var (rows', id, nextId') := Upsert(rows, nextId, incoming);
      rows, nextId := rows', nextId';
      if WriteTable(modelId) == Esm2_8M {
        vec8m := vec8m[id := vector.value];
      } else {
        vec650m := vec650m[id := vector.value];
      }
      r := Success(id);
    }

    /** `find_similar(vector, model_id, limit=5)` with the pgvector distance `distance`. */
    method FindSimilar(vector: seq<real>, modelId: string, distance: (seq<real>, seq<real>) -> real, limit: nat := DefaultSimilarLimit)
      returns (r: seq<Similar>)
      ensures r == Limit(SortByDistance(Candidates(rows, Table(SearchTable(modelId)), modelId, vector, distance)), limit)
    {
      var table := if SearchTable(modelId) == Esm2_650M then vec650m else vec8m;
      r := Limit(SortByDistance(Candidates(rows, table, modelId, vector, distance)), limit);
    }

    /**
     * `get_embedding_by_accession`: the first row with the accession, whatever
     * its model, with its two JSON columns decoded where they hold a
     * non-empty string.
     */
    method GetEmbeddingByAccession(accession: string, modelId: string, loads: string -> seq<string>)
      returns (r: Option<Meta>)
      ensures match FirstWithAccession(rows, accession)
        case None => r.None?
        case Some(m) => r == Some(m.(pdbIds := DecodeColumn(m.pdbIds, loads), bindingSites := DecodeColumn(m.bindingSites, loads)))
    {
      var found := FirstWithAccession(rows, accession);
      if found.None? {
        return None;
      }
      var row := found.value;
      var keys := [PdbIds, BindingSites];
      for i := 0 to |keys|
        invariant row.(pdbIds := found.value.pdbIds, bindingSites := found.value.bindingSites) == found.value
        invariant row.pdbIds == if i > 0 then DecodeColumn(found.value.pdbIds, loads) else found.value.pdbIds
        invariant row.bindingSites == if i > 1 then DecodeColumn(found.value.bindingSites, loads) else found.value.bindingSites
      {
        if keys[i] == PdbIds {
          row := row.(pdbIds := DecodeColumn(row.pdbIds, loads));
        } else {
          row := row.(bindingSites := DecodeColumn(row.bindingSites, loads));
        }
      }
      r := Some(row);
    }

    /** `get_all_summaries(limit=100)`: the first `limit` rows, projected. */
    method GetAllSummaries(limit: nat := DefaultSummaryLimit) returns (r: seq<Summary>)
      ensures |r| == if limit < |rows| then limit else |rows|
      ensures forall i | 0 <= i < |r| :: r[i] == SummaryOf(rows[i])
    {
      r := [];
      var n := if limit < |rows| then limit else |rows|;
      for i := 0 to n
        invariant |r| == i && forall k | 0 <= k < i :: r[k] == SummaryOf(rows[k])
      {
        r := r + [SummaryOf(rows[i])];
      }
    }
  }

  /**
   * The two list columns of a new row: a missing key is stored as an empty
   * list, but a key present with None is stored as JSON `null`, which reads
   * back as None and not as `[]`.
   */
  lemma NewRowListColumns(id: nat, hash: string, modelId: string, confidence: real, isFallback: bool, sequence: Option<string>, bio: Bio)
    ensures var m := NewRow(id, hash, modelId, confidence, isFallback, sequence, bio);
      && (bio.annotations.Missing? ==> m.bindingSites == Items([]))
      && (bio.annotations.NoneValue? ==> m.bindingSites == Null)
      && (bio.annotations.Listed? ==> m.bindingSites == Items(bio.annotations.items))
      && (bio.pdbIds.Missing? ==> m.pdbIds == Items([]))
      && (bio.pdbIds.NoneValue? ==> m.pdbIds == Null)
      && (bio.pdbIds.Listed? ==> m.pdbIds == Items(bio.pdbIds.items))
  {
  }

  /** A stored row keeps the accession the gateway later looks it up by. */
  lemma StoredRowFoundByAccession(rows: seq<Meta>, nextId: nat, incoming: Meta, accession: string)
    requires ValidRows(rows, nextId) && incoming.accession == Some(accession)
    requires FindRow(rows, incoming.hash, incoming.modelId).None?
    ensures FirstWithAccession(Upsert(rows, nextId, incoming).0, accession).Some?
  {
    var rows' := Upsert(rows, nextId, incoming).0;
    assert rows'[|rows|].accession == Some(accession);
  }

  // ---------------------------------------------------------------------------
  // The connection pool

  datatype Pool = Pool(dbUrl: string, minConn: nat, maxConn: nat)

  /** `DatabasePool`: the class attribute `_pool`. */
  class DatabasePool {
    var pool: Option<Pool>

    constructor ()
      ensures pool.None?
    {
      pool := None;
    }

    /** `get_pool(db_url)`: the pool is made on the first call only; later URLs are ignored. */
    method GetPool(dbUrl: string) returns (p: Pool)
      modifies this
      ensures old(pool).None? ==> pool == Some(Pool(dbUrl, 1, 20))
      ensures old(pool).Some? ==> pool == old(pool)
      ensures pool == Some(p)
    {
      if pool.None? {
        pool := Some(Pool(dbUrl, 1, 20));
      }
      p := pool.value;
    }
  }
}
