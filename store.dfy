/** `insert_data` and the transaction around it in `main`: the two tables, the
    statements the loader executes against them, and the connection's commit and
    rollback. */
module Store {
  import opened Wrappers
  import opened Errors
  import opened Records
  import opened Upsert

  /** The committed contents of amazon_products, by product_id, and of product_reviews,
      by review_id. */
  datatype Tables = Tables(products: map<Cell, Product>, reviews: map<string, Review>)

  /** What the database refuses, row by row: a value too long for its column, a missing
      primary key or any other constraint the schema imposes. None means the row is
      accepted. */
  datatype Schema = Schema(productFault: Product -> Option<DbFault>, reviewFault: Review -> Option<DbFault>)

  function ProductKey(p: Product): Cell { p.productId }

  function ReviewKey(r: Review): string { r.reviewId }

  /** The tables once every statement of the batch has been executed: products first,
      then reviews, each keeping the row already stored under its key. */
  function ApplyBatch(t: Tables, b: Batch): Tables {
    Tables(InsertAll(t.products, b.products, ProductKey), InsertAll(t.reviews, b.reviews, ReviewKey))
  }

  /** Loading the same batch again changes nothing: every key it carries is taken. */
  lemma ApplyBatchIdempotent(t: Tables, b: Batch)
    ensures ApplyBatch(ApplyBatch(t, b), b) == ApplyBatch(t, b)
  {
    InsertAllIdempotent(t.products, b.products, ProductKey);
    InsertAllIdempotent(t.reviews, b.reviews, ReviewKey);
  }

  /** Every stored review names a stored product. Whether the tables declare a foreign
      key is not part of this model: such a check depends on the rows already stored,
      which `Schema` does not see. */
  predicate RefIntegrity(t: Tables) {
    forall id :: id in t.reviews ==> t.reviews[id].productId in t.products
  }

  /** A batch whose every review names one of the batch's own products keeps every stored
      review pointing at a stored product. The order of the statements plays no part. */
  lemma BatchKeepsRefs(db: Tables, b: Batch)
    requires RefIntegrity(db)
    requires forall j :: 0 <= j < |b.reviews| ==> b.reviews[j].productId in KeysOf(b.products, ProductKey)
    ensures RefIntegrity(ApplyBatch(db, b))
  {
    var t := ApplyBatch(db, b);
    InsertAllKeys(db.products, b.products, ProductKey);
    InsertAllKeeps(db.reviews, b.reviews, ReviewKey);
    forall id | id in t.reviews ensures t.reviews[id].productId in t.products {
      if id !in db.reviews {
        InsertAllNew(db.reviews, b.reviews, ReviewKey, id);
        var j :| 0 <= j < |b.reviews| && ReviewKey(b.reviews[j]) == id && t.reviews[id] == b.reviews[j];
        assert b.reviews[j].productId in KeysOf(b.products, ProductKey);
      }
    }
  }

  /** The position of the first row the database refuses, or |vs| when it refuses none. */
  function FirstRejected<V>(vs: seq<V>, fault: V -> Option<DbFault>): (i: nat)
    ensures i <= |vs|
    ensures forall j :: 0 <= j < i ==> fault(vs[j]).None?
    ensures i < |vs| ==> fault(vs[i]).Some?
  {
    if vs == [] then 0
    else if fault(vs[0]).Some? then 0
    else
      var i := FirstRejected(vs[1..], fault);
      assert forall j :: 1 <= j < 1 + i ==> vs[j] == vs[1..][j - 1];
      1 + i
  }

  /** The first refused row is the one the database refuses after accepting every row before it. */
  lemma FirstRejectedIs<V>(vs: seq<V>, fault: V -> Option<DbFault>, i: nat)
    requires i <= |vs| && forall j :: 0 <= j < i ==> fault(vs[j]).None?
    requires i < |vs| ==> fault(vs[i]).Some?
    ensures FirstRejected(vs, fault) == i
  {
  }

  /** What `insert_data` raises: the error of its first refused statement. The product
      statements all run before the review statements. */
  function InsertOutcome(ps: seq<Product>, rs: seq<Review>, schema: Schema): Outcome<Error> {
    var i := FirstRejected(ps, schema.productFault);
    if i < |ps| then Fail(Database(schema.productFault(ps[i]).value))
    else
      var j := FirstRejected(rs, schema.reviewFault);
      if j < |rs| then Fail(Database(schema.reviewFault(rs[j]).value))
      else Pass
  }

  /** The uncommitted contents of the tables once `insert_data` returns or raises: every
      statement before the first refused one has taken effect. */
  function StagedAfter(t: Tables, ps: seq<Product>, rs: seq<Review>, schema: Schema): Tables {
    var i := FirstRejected(ps, schema.productFault);
    if i < |ps| then Tables(InsertAll(t.products, ps[..i], ProductKey), t.reviews)
    else
      var j := FirstRejected(rs, schema.reviewFault);
      Tables(InsertAll(t.products, ps, ProductKey), InsertAll(t.reviews, rs[..j], ReviewKey))
  }

  /** `insert_data` succeeds exactly when the database accepts every row, and then it
      raises nothing; otherwise it raises a database error, the one of a refused row. */
  lemma InsertOutcomePasses(ps: seq<Product>, rs: seq<Review>, schema: Schema)
    ensures InsertOutcome(ps, rs, schema).Pass? <==>
              && (forall i :: 0 <= i < |ps| ==> schema.productFault(ps[i]).None?)
              && (forall j :: 0 <= j < |rs| ==> schema.reviewFault(rs[j]).None?)
    ensures InsertOutcome(ps, rs, schema).Fail? ==>
              || (exists i :: 0 <= i < |ps| && schema.productFault(ps[i]) == Some(InsertOutcome(ps, rs, schema).error.fault))
              || (exists j :: 0 <= j < |rs| && schema.reviewFault(rs[j]) == Some(InsertOutcome(ps, rs, schema).error.fault))
  {
  }

  /** When `insert_data` succeeds, the pending work is the whole batch applied to the
      tables it started from. */
  lemma StagedAfterPass(t: Tables, ps: seq<Product>, rs: seq<Review>, schema: Schema)
    requires InsertOutcome(ps, rs, schema).Pass?
    ensures StagedAfter(t, ps, rs, schema) == ApplyBatch(t, Batch(ps, rs))
  {
    assert rs[..|rs|] == rs;
  }

  /** The statement for product i is the first one refused. */
  lemma ProductRefused(t: Tables, ps: seq<Product>, rs: seq<Review>, schema: Schema, i: nat)
    requires i < |ps| && schema.productFault(ps[i]).Some?
    requires forall j :: 0 <= j < i ==> schema.productFault(ps[j]).None?
    ensures InsertOutcome(ps, rs, schema) == Fail(Database(schema.productFault(ps[i]).value))
    ensures StagedAfter(t, ps, rs, schema) == Tables(InsertAll(t.products, ps[..i], ProductKey), t.reviews)
  {
    FirstRejectedIs(ps, schema.productFault, i);
  }

  /** Every product is accepted and the statement for review i is the first one refused. */
  lemma ReviewRefused(t: Tables, ps: seq<Product>, rs: seq<Review>, schema: Schema, i: nat)
    requires forall j :: 0 <= j < |ps| ==> schema.productFault(ps[j]).None?
    requires i < |rs| && schema.reviewFault(rs[i]).Some?
    requires forall j :: 0 <= j < i ==> schema.reviewFault(rs[j]).None?
    ensures InsertOutcome(ps, rs, schema) == Fail(Database(schema.reviewFault(rs[i]).value))
    ensures StagedAfter(t, ps, rs, schema) == Tables(InsertAll(t.products, ps, ProductKey), InsertAll(t.reviews, rs[..i], ReviewKey))
  {
    FirstRejectedIs(ps, schema.productFault, |ps|);
    FirstRejectedIs(rs, schema.reviewFault, i);
  }

  /** Every statement is accepted. */
  lemma AllAccepted(t: Tables, ps: seq<Product>, rs: seq<Review>, schema: Schema)
    requires forall j :: 0 <= j < |ps| ==> schema.productFault(ps[j]).None?
    requires forall j :: 0 <= j < |rs| ==> schema.reviewFault(rs[j]).None?
    ensures InsertOutcome(ps, rs, schema) == Pass
    ensures StagedAfter(t, ps, rs, schema) == Tables(InsertAll(t.products, ps, ProductKey), InsertAll(t.reviews, rs, ReviewKey))
  {
    FirstRejectedIs(ps, schema.productFault, |ps|);
    FirstRejectedIs(rs, schema.reviewFault, |rs|);
    assert rs[..|rs|] == rs;
  }

  /** A connection to the database: the tables as committed, the tables as this
      connection's open transaction sees them, and whether it is still open. */
  class Connection {
    var committed: Tables
    var staged: Tables
    var open: bool
    const schema: Schema

    /** `psycopg.connect(...)`: a new connection with no pending work. */
    constructor (db: Tables, schema: Schema)
      ensures committed == db && staged == db && open && this.schema == schema
    {
      committed := db;
      staged := db;
      open := true;
      this.schema := schema;
    }

    /** `insert_data(conn, products, reviews)`: one statement per product, then one per
        review, inside the connection's open transaction; the first refused statement
        raises and ends the call. */
    method InsertData(ps: seq<Product>, rs: seq<Review>) returns (r: Outcome<Error>)
      requires open
      modifies this
      ensures r == InsertOutcome(ps, rs, schema)
      ensures staged == StagedAfter(old(staged), ps, rs, schema)
      ensures committed == old(committed) && open
    {
      ghost var start := staged;
      var i := InsertProducts(ps);
      if i < |ps| {
        ProductRefused(start, ps, rs, schema, i);
        return Fail(Database(schema.productFault(ps[i]).value));
      }
      assert ps[..i] == ps;
      var j := InsertReviews(rs);
      if j < |rs| {
        ReviewRefused(start, ps, rs, schema, j);
        return Fail(Database(schema.reviewFault(rs[j]).value));
      }
      AllAccepted(start, ps, rs, schema);
      return Pass;
    }

    /** The product loop of `insert_data`: executes the statements in order and stops at
        the first one refused, whose position it reports (|ps| when none is refused). */
    method InsertProducts(ps: seq<Product>) returns (i: nat)
      requires open
      modifies this
      ensures i == FirstRejected(ps, schema.productFault)
      ensures staged == Tables(InsertAll(old(staged).products, ps[..i], ProductKey), old(staged).reviews)
      ensures committed == old(committed) && open
    {
      i := 0;
      assert ps[..0] == [];
      while i < |ps|
        invariant 0 <= i <= |ps|
        invariant forall j :: 0 <= j < i ==> schema.productFault(ps[j]).None?
        invariant staged == Tables(InsertAll(old(staged).products, ps[..i], ProductKey), old(staged).reviews)
        invariant committed == old(committed) && open
      {
        if schema.productFault(ps[i]).Some? {
          FirstRejectedIs(ps, schema.productFault, i);
          return;
        }
        InsertAllStep(old(staged).products, ps, ProductKey, i);
        staged := Tables(InsertIfAbsent(staged.products, ProductKey(ps[i]), ps[i]), staged.reviews);
        i := i + 1;
      }
      FirstRejectedIs(ps, schema.productFault, i);
    }

    /** The review loop of `insert_data`; a refused statement, a truncated value among
        them, is re-raised unchanged. */
    method InsertReviews(rs: seq<Review>) returns (i: nat)
      requires open
      modifies this
      ensures i == FirstRejected(rs, schema.reviewFault)
      ensures staged == Tables(old(staged).products, InsertAll(old(staged).reviews, rs[..i], ReviewKey))
      ensures committed == old(committed) && open
    {
      i := 0;
      assert rs[..0] == [];
      while i < |rs|
        invariant 0 <= i <= |rs|
        invariant forall j :: 0 <= j < i ==> schema.reviewFault(rs[j]).None?
        invariant staged == Tables(old(staged).products, InsertAll(old(staged).reviews, rs[..i], ReviewKey))
        invariant committed == old(committed) && open
      {
        if schema.reviewFault(rs[i]).Some? {
          FirstRejectedIs(rs, schema.reviewFault, i);
          return;
        }
        InsertAllStep(old(staged).reviews, rs, ReviewKey, i);
        staged := Tables(staged.products, InsertIfAbsent(staged.reviews, ReviewKey(rs[i]), rs[i]));
        i := i + 1;
      }
      FirstRejectedIs(rs, schema.reviewFault, i);
    }

    /** `conn.commit()`: the pending work becomes the committed contents. */
    method Commit()
      requires open
      modifies this
      ensures committed == old(staged) && staged == old(staged) && open
    {
      committed := staged;
    }

    /** `conn.rollback()`: the pending work is discarded. */
    method Rollback()
      requires open
      modifies this
      ensures committed == old(committed) && staged == old(committed) && open
    {
      staged := committed;
    }

    /** `conn.close()`: the connection is closed and any pending work is discarded. */
    method Close()
      modifies this
      ensures committed == old(committed) && staged == old(committed) && !open
    {
      staged := committed;
      open := false;
    }
  }

  /** The transaction block of `main`: insert, then commit; on an error, roll back and
      re-raise; close the connection in every case. Either the whole batch is committed
      or nothing is. */
  method LoadInTransaction(conn: Connection, ps: seq<Product>, rs: seq<Review>) returns (r: Outcome<Error>)
    requires conn.open && conn.staged == conn.committed
    modifies conn
    ensures r == InsertOutcome(ps, rs, conn.schema)
    ensures r.Pass? ==> conn.committed == ApplyBatch(old(conn.committed), Batch(ps, rs))
    ensures r.Fail? ==> conn.committed == old(conn.committed)
    ensures !conn.open && conn.staged == conn.committed
  {
    r := conn.InsertData(ps, rs);
    if r.Pass? {
      StagedAfterPass(old(conn.staged), ps, rs, conn.schema);
      conn.Commit();
    } else {
      conn.Rollback();
    }
    conn.Close();
  }
}
