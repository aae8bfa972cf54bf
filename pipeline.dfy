/** `main`: process the export, then load the result in one transaction; an error at
    either stage is re-raised. */
module Pipeline {
  import opened Wrappers
  import opened Errors
  import opened Records
  import opened Upsert
  import opened Store

  /** What one run reports and what the database holds afterwards. */
  function Ingested(rows: seq<Row>, db: Tables, schema: Schema): (Outcome<Error>, Tables) {
    match BatchOf(rows)
    case Err(e) => (Fail(e), db)
    case Ok(b) =>
      var outcome := InsertOutcome(b.products, b.reviews, schema);
      (outcome, if outcome.Pass? then ApplyBatch(db, b) else db)
  }

  /** One run of the loader against a database holding `db`: a processing error is
      raised before a connection is opened; otherwise the batch is loaded inside one
      transaction that is committed or rolled back as a whole. */
  method Ingest(rows: seq<Row>, db: Tables, schema: Schema) returns (r: Outcome<Error>, after: Tables)
    ensures (r, after) == Ingested(rows, db, schema)
  {
    var batch := ProcessDataframe(rows);
    if batch.Err? {
      return Fail(batch.error), db;
    }
    var conn := new Connection(db, schema);
    r := LoadInTransaction(conn, batch.value.products, batch.value.reviews);
    after := conn.committed;
  }

  /** A run either commits its whole batch and reports success, or leaves the database
      exactly as it was and reports the error. */
  lemma IngestAtomic(rows: seq<Row>, db: Tables, schema: Schema)
    ensures Ingested(rows, db, schema).0.Pass? <==>
              BatchOf(rows).Ok? && InsertOutcome(BatchOf(rows).value.products, BatchOf(rows).value.reviews, schema).Pass?
    ensures Ingested(rows, db, schema).0.Pass? ==> Ingested(rows, db, schema).1 == ApplyBatch(db, BatchOf(rows).value)
    ensures Ingested(rows, db, schema).0.Fail? ==> Ingested(rows, db, schema).1 == db
  {
  }

  /** Running the loader a second time on the same export reports the same outcome and
      leaves the database as the first run left it. */
  lemma IngestIdempotent(rows: seq<Row>, db: Tables, schema: Schema)
    ensures Ingested(rows, Ingested(rows, db, schema).1, schema) == Ingested(rows, db, schema)
  {
    if BatchOf(rows).Ok? {
      ApplyBatchIdempotent(db, BatchOf(rows).value);
    }
  }

  /** The product_id of each row, and the review_id of each row that has one. */
  function RowProductIds(rows: seq<Row>): set<Cell> {
    set i | 0 <= i < |rows| :: rows[i].productId
  }

  function RowReviewIds(rows: seq<Row>): set<string> {
    set i | 0 <= i < |rows| && rows[i].reviewId.Some? :: rows[i].reviewId.value
  }

  /** The keys of the batch are the rows' product_ids and present review_ids. */
  lemma BatchKeys(rows: seq<Row>)
    requires BatchOf(rows).Ok?
    ensures KeysOf(BatchOf(rows).value.products, ProductKey) == RowProductIds(rows)
    ensures KeysOf(BatchOf(rows).value.reviews, ReviewKey) == RowReviewIds(rows)
  {
    BatchProductKeys(rows);
    ReviewKeys(rows, BuildProduct);
  }

  lemma BatchProductKeys(rows: seq<Row>)
    requires BatchOf(rows).Ok?
    ensures KeysOf(BatchOf(rows).value.products, ProductKey) == RowProductIds(rows)
  {
    var b := BatchOf(rows).value;
    BatchProductIds(rows);
    assert forall i :: 0 <= i < |rows| ==> ProductKey(b.products[i]) == rows[i].productId;
  }

  /** The review keys depend only on the rows, whatever builds the products. */
  lemma ReviewKeys(rows: seq<Row>, build: Row -> Result<Product, Error>)
    requires Collect(rows, build).Ok?
    ensures KeysOf(Collect(rows, build).value.reviews, ReviewKey) == RowReviewIds(rows)
  {
    var reviews := Collect(rows, build).value.reviews;
    CollectReviews(rows, build);
    var idx := ReviewRows(rows);
    assert RowReviewIds(rows) <= KeysOf(reviews, ReviewKey) by {
      forall k | k in RowReviewIds(rows) ensures k in KeysOf(reviews, ReviewKey) {
        var i :| 0 <= i < |rows| && rows[i].reviewId.Some? && rows[i].reviewId.value == k;
        var j :| 0 <= j < |idx| && idx[j] == i;
        assert ReviewKey(reviews[j]) == k;
      }
    }
    assert KeysOf(reviews, ReviewKey) <= RowReviewIds(rows) by {
      forall k | k in KeysOf(reviews, ReviewKey) ensures k in RowReviewIds(rows) {
        var j :| 0 <= j < |reviews| && ReviewKey(reviews[j]) == k;
        assert rows[idx[j]].reviewId.value == k;
      }
    }
  }

  /** After a successful run the tables hold exactly what they held before plus the
      rows' product_ids and present review_ids; nothing stored before has changed. */
  lemma IngestKeys(rows: seq<Row>, db: Tables, schema: Schema)
    requires Ingested(rows, db, schema).0.Pass?
    ensures Ingested(rows, db, schema).1.products.Keys == db.products.Keys + RowProductIds(rows)
    ensures Ingested(rows, db, schema).1.reviews.Keys == db.reviews.Keys + RowReviewIds(rows)
    ensures forall k :: k in db.products ==> Ingested(rows, db, schema).1.products[k] == db.products[k]
    ensures forall k :: k in db.reviews ==> Ingested(rows, db, schema).1.reviews[k] == db.reviews[k]
  {
    var b := BatchOf(rows).value;
    BatchKeys(rows);
    InsertAllKeys(db.products, b.products, ProductKey);
    InsertAllKeys(db.reviews, b.reviews, ReviewKey);
    InsertAllKeeps(db.products, b.products, ProductKey);
    InsertAllKeeps(db.reviews, b.reviews, ReviewKey);
  }

  /** For a product_id that was not stored yet, a successful run stores the product of
      the first row carrying it; later rows with the same id are ignored. */
  lemma IngestStoresFirstProduct(rows: seq<Row>, db: Tables, schema: Schema, i: nat)
    requires Ingested(rows, db, schema).0.Pass?
    requires i < |rows| && rows[i].productId !in db.products
    requires forall j :: 0 <= j < i ==> rows[j].productId != rows[i].productId
    ensures rows[i].productId in Ingested(rows, db, schema).1.products
    ensures BuildProduct(rows[i]) == Ok(Ingested(rows, db, schema).1.products[rows[i].productId])
  {
    var b := BatchOf(rows).value;
    CollectProducts(rows, BuildProduct);
    BatchProductIds(rows);
    assert forall j :: 0 <= j <= i ==> ProductKey(b.products[j]) == rows[j].productId;
    InsertAllFirstWins(db.products, b.products, ProductKey, i);
    var stored := InsertAll(db.products, b.products, ProductKey);
    assert stored[ProductKey(b.products[i])] == b.products[i];
    assert ProductKey(b.products[i]) == rows[i].productId;
    assert Ingested(rows, db, schema).1.products == stored;
    assert BuildProduct(rows[i]) == Ok(b.products[i]);
  }

  /** A run never leaves a stored review without its product: starting from tables in
      which every review names a stored product, the tables afterwards are so too. Every
      review of the batch comes from a row whose product is in the same batch, and the
      batch is committed whole or not at all. */
  lemma IngestKeepsReferences(rows: seq<Row>, db: Tables, schema: Schema)
    requires RefIntegrity(db)
    ensures RefIntegrity(Ingested(rows, db, schema).1)
  {
    if Ingested(rows, db, schema).0.Pass? {
      var b := BatchOf(rows).value;
      ReviewsHaveProducts(rows);
      forall j | 0 <= j < |b.reviews| ensures b.reviews[j].productId in KeysOf(b.products, ProductKey) {
        var i :| 0 <= i < |rows| && i < |b.products| && b.products[i].productId == b.reviews[j].productId;
        assert ProductKey(b.products[i]) == b.reviews[j].productId;
      }
      BatchKeepsRefs(db, b);
    }
  }
}
