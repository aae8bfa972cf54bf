/** `process_dataframe`: turning the rows of the export into the product records and
    the review records that are written to the database. */
module Records {
  import opened Wrappers
  import opened Errors
  import opened Numerals
  import opened Cleaners

  /** One cell of the export; None stands for pandas' NA. */
  type Cell = Option<string>

  /** `str(cell)`: an NA cell prints as "nan". */
  function CellText(c: Cell): string {
    match c
    case Some(s) => s
    case None => "nan"
  }

  /** One row of the export, column by column. `reviewContent` is None when the frame
      has no review_content column at all (the only column read with `row.get`). */
  datatype Row = Row(
    productId: Cell, productName: Cell, category: Cell,
    discountedPrice: Cell, actualPrice: Cell, discountPercentage: Cell,
    rating: Cell, ratingCount: Cell,
    aboutProduct: Cell, imgLink: Cell, productLink: Cell,
    reviewId: Cell, userId: Cell, userName: Cell, reviewTitle: Cell,
    reviewContent: Option<Cell>)

  /** A row of amazon_products. */
  datatype Product = Product(
    productId: Cell, productName: string, category: string,
    discountedPrice: Decimal, actualPrice: Decimal, discountPercentage: nat,
    rating: Option<Decimal>, ratingCount: nat,
    aboutProduct: Cell, imgLink: Cell, productLink: Cell)

  /** A row of product_reviews; only built for a row whose review_id is present.
      `reviewContent` keeps what `row.get` returned: None (sent as SQL NULL) when the
      export has no review_content column, the cell itself (NA included) otherwise. */
  datatype Review = Review(
    reviewId: string, productId: Cell, userId: Cell, userName: Cell,
    reviewTitle: Cell, reviewContent: Option<Cell>)

  /** The two lists `process_dataframe` returns. */
  datatype Batch = Batch(products: seq<Product>, reviews: seq<Review>)

  /** The product dict of one row. Its entries are evaluated in column order, so the
      error raised is that of the first numeric column whose normaliser raises. */
  function BuildProduct(row: Row): Result<Product, Error>
  {
    var discounted :- CleanPrice(CellText(row.discountedPrice));
    var actual :- CleanPrice(CellText(row.actualPrice));
    var percentage :- CleanPercentage(CellText(row.discountPercentage));
    var rating := CleanRating(row.rating);
    var count :- CleanRatingCount(CellText(row.ratingCount));
    Ok(Product(row.productId, CellText(row.productName), CellText(row.category),
               discounted, actual, percentage, rating, count,
               row.aboutProduct, row.imgLink, row.productLink))
  }

  /** A row's product passes its identifying and free-text cells through unchanged and
      holds what the normalisers make of its numeric cells; it is built exactly when
      none of its four calls to a raising normaliser raises, and otherwise fails
      with a normaliser's ValueError. */
  lemma BuildProductFields(row: Row)
    ensures BuildProduct(row).Ok? <==>
      && CleanPrice(CellText(row.discountedPrice)).Ok?
      && CleanPrice(CellText(row.actualPrice)).Ok?
      && CleanPercentage(CellText(row.discountPercentage)).Ok?
      && CleanRatingCount(CellText(row.ratingCount)).Ok?
    ensures BuildProduct(row).Ok? ==>
      && BuildProduct(row).value.productId == row.productId
      && BuildProduct(row).value.productName == CellText(row.productName)
      && BuildProduct(row).value.category == CellText(row.category)
      && Ok(BuildProduct(row).value.discountedPrice) == CleanPrice(CellText(row.discountedPrice))
      && Ok(BuildProduct(row).value.actualPrice) == CleanPrice(CellText(row.actualPrice))
      && Ok(BuildProduct(row).value.discountPercentage) == CleanPercentage(CellText(row.discountPercentage))
      && BuildProduct(row).value.rating == CleanRating(row.rating)
      && Ok(BuildProduct(row).value.ratingCount) == CleanRatingCount(CellText(row.ratingCount))
      && BuildProduct(row).value.aboutProduct == row.aboutProduct
      && BuildProduct(row).value.imgLink == row.imgLink
      && BuildProduct(row).value.productLink == row.productLink
    ensures BuildProduct(row).Err? ==> BuildProduct(row).error.NotANumber?
  {
  }

  /** An NA numeric cell prints as "nan", so it takes its normaliser's default rather
      than raising; an NA rating is None. */
  lemma MissingCellsDefault(row: Row)
    ensures row.discountedPrice.None? ==> CleanPrice(CellText(row.discountedPrice)) == Ok(Zero)
    ensures row.actualPrice.None? ==> CleanPrice(CellText(row.actualPrice)) == Ok(Zero)
    ensures row.discountPercentage.None? ==> CleanPercentage(CellText(row.discountPercentage)) == Ok(0)
    ensures row.ratingCount.None? ==> CleanRatingCount(CellText(row.ratingCount)) == Ok(0)
    ensures row.rating.None? ==> CleanRating(row.rating).None?
  {
    assert IsDefaulted(CellText(None));
  }

  /** The review dict of a row whose review_id is present. */
  function BuildReview(row: Row): Review
    requires row.reviewId.Some?
  {
    Review(row.reviewId.value, row.productId, row.userId, row.userName, row.reviewTitle,
           row.reviewContent)
  }

  /** A review keeps what `row.get("review_content", None)` returned: a missing column
      (None, sent as SQL NULL) and an NA cell give different reviews. */
  lemma ReviewContentKept(row: Row)
    requires row.reviewId.Some?
    ensures BuildReview(row).reviewContent == row.reviewContent
    ensures BuildReview(row.(reviewContent := None)) != BuildReview(row.(reviewContent := Some(None)))
  {
  }

  /** The loop of `process_dataframe`, for any way `build` of making a row's product:
      every row's product, and the review of every row with a review_id, in row order;
      the first error raised by a row aborts the whole call. */
  function Collect(rows: seq<Row>, build: Row -> Result<Product, Error>): Result<Batch, Error> {
    if rows == [] then
      Ok(Batch([], []))
    else
      var b :- Collect(rows[..|rows| - 1], build);
      var row := rows[|rows| - 1];
      var p :- build(row);
      Ok(Batch(b.products + [p], b.reviews + if row.reviewId.Some? then [BuildReview(row)] else []))
  }

  /** What `process_dataframe` computes. */
  function BatchOf(rows: seq<Row>): Result<Batch, Error> {
    Collect(rows, BuildProduct)
  }

  /** `process_dataframe(df)`: the loop that appends one product per row and one
      review per row carrying a review_id. */
  method ProcessDataframe(rows: seq<Row>) returns (r: Result<Batch, Error>)
    ensures r == BatchOf(rows)
  {
    var products: seq<Product> := [];
    var reviews: seq<Review> := [];
    var i := 0;
    assert rows[..0] == [];
    while i < |rows|
      invariant 0 <= i <= |rows|
      invariant Collect(rows[..i], BuildProduct) == Ok(Batch(products, reviews))
    {
      var row := rows[i];
      var product := BuildProduct(row);
      CollectStep(rows, BuildProduct, i, Batch(products, reviews));
      if product.Err? {
        CollectAborts(rows, BuildProduct, i + 1);
        return Err(product.error);
      }
      ghost var next := Collect(rows[..i + 1], BuildProduct);
      assert next.Ok?;
      products := products + [product.value];
      assert next.value.products == products;
      if row.reviewId.Some? {
        reviews := reviews + [BuildReview(row)];
      }
      assert next.value.reviews == reviews;
      i := i + 1;
    }
    assert rows[..i] == rows;
    return Ok(Batch(products, reviews));
  }

  /** Extending the rows by one row adds its product, and its review when it has a
      review_id, or raises that row's error. */
  lemma CollectStep(rows: seq<Row>, build: Row -> Result<Product, Error>, i: nat, b: Batch)
    requires i < |rows| && Collect(rows[..i], build) == Ok(b)
    ensures build(rows[i]).Err? ==> Collect(rows[..i + 1], build) == Err(build(rows[i]).error)
    ensures build(rows[i]).Ok? ==>
              Collect(rows[..i + 1], build) == Ok(Batch(b.products + [build(rows[i]).value],
                                                 b.reviews + if rows[i].reviewId.Some? then [BuildReview(rows[i])] else []))
  {
    assert rows[..i + 1][..i] == rows[..i] && rows[..i + 1][i] == rows[i];
  }

  /** A row that raises aborts the call: the rows after it change nothing. */
  lemma {:induction false} CollectAborts(rows: seq<Row>, build: Row -> Result<Product, Error>, k: nat)
    requires k <= |rows| && Collect(rows[..k], build).Err?
    ensures Collect(rows, build) == Collect(rows[..k], build)
    decreases |rows| - k
  {
    if k < |rows| {
      var init := rows[..|rows| - 1];
      assert init[..k] == rows[..k];
      CollectAborts(init, build, k);
    } else {
      assert rows[..k] == rows;
    }
  }

  /** The call succeeds exactly when every row's product can be built. */
  lemma {:induction false} CollectOk(rows: seq<Row>, build: Row -> Result<Product, Error>)
    ensures Collect(rows, build).Ok? <==> forall i :: 0 <= i < |rows| ==> build(rows[i]).Ok?
  {
    if rows != [] {
      var n := |rows| - 1;
      var init := rows[..n];
      CollectOk(init, build);
      assert forall i :: 0 <= i < n ==> init[i] == rows[i];
      if Collect(init, build).Err? {
        var i :| 0 <= i < n && !build(init[i]).Ok?;
        assert !build(rows[i]).Ok?;
      }
    }
  }

  /** One product per row, in row order, each the product of its row. */
  lemma {:induction false} CollectProducts(rows: seq<Row>, build: Row -> Result<Product, Error>)
    requires Collect(rows, build).Ok?
    ensures |Collect(rows, build).value.products| == |rows|
    ensures forall i :: 0 <= i < |rows| ==> build(rows[i]) == Ok(Collect(rows, build).value.products[i])
  {
    if rows != [] {
      var n := |rows| - 1;
      var init := rows[..n];
      CollectProducts(init, build);
      var before := Collect(init, build).value.products;
      var products := Collect(rows, build).value.products;
      assert products == before + [build(rows[n]).value];
      forall i | 0 <= i < |rows| ensures build(rows[i]) == Ok(products[i]) {
        if i < n {
          assert rows[i] == init[i] && products[i] == before[i];
        }
      }
    }
  }

  /** When the call raises, it raises the error of the first row whose product
      cannot be built. */
  lemma {:induction false} CollectFirstError(rows: seq<Row>, build: Row -> Result<Product, Error>)
    requires Collect(rows, build).Err?
    ensures exists i :: 0 <= i < |rows|
                   && (forall j :: 0 <= j < i ==> build(rows[j]).Ok?)
                   && build(rows[i]) == Err(Collect(rows, build).error)
  {
    var init := rows[..|rows| - 1];
    assert forall i :: 0 <= i < |init| ==> init[i] == rows[i];
    if Collect(init, build).Err? {
      CollectFirstError(init, build);
      var i :| 0 <= i < |init|
             && (forall j :: 0 <= j < i ==> build(init[j]).Ok?)
             && build(init[i]) == Err(Collect(init, build).error);
      assert build(rows[i]) == Err(Collect(rows, build).error);
    } else {
      CollectOk(init, build);
      assert build(rows[|rows| - 1]) == Err(Collect(rows, build).error);
    }
  }

  /** Each product keeps the product_id of its row. */
  lemma BatchProductIds(rows: seq<Row>)
    requires BatchOf(rows).Ok?
    ensures |BatchOf(rows).value.products| == |rows|
    ensures forall i :: 0 <= i < |rows| ==> BatchOf(rows).value.products[i].productId == rows[i].productId
  {
    CollectProducts(rows, BuildProduct);
    forall i | 0 <= i < |rows| ensures BatchOf(rows).value.products[i].productId == rows[i].productId {
      KeepsProductId(rows[i]);
    }
  }

  lemma KeepsProductId(row: Row)
    ensures BuildProduct(row).Ok? ==> BuildProduct(row).value.productId == row.productId
  {
    BuildProductFields(row);
  }

  /** The positions of the rows whose review_id is present, in increasing order. */
  function ReviewRows(rows: seq<Row>): (idx: seq<nat>)
    ensures |idx| <= |rows|
    ensures forall j :: 0 <= j < |idx| ==> idx[j] < |rows| && rows[idx[j]].reviewId.Some?
    ensures forall j, k :: 0 <= j < k < |idx| ==> idx[j] < idx[k]
    ensures forall i :: 0 <= i < |rows| && rows[i].reviewId.Some? ==> i in idx
  {
    if rows == [] then []
    else
      var init := rows[..|rows| - 1];
      assert forall i :: 0 <= i < |init| ==> init[i] == rows[i];
      ReviewRows(init) + if rows[|rows| - 1].reviewId.Some? then [|rows| - 1] else []
  }

  /** Reviews are made, in row order, for exactly the rows whose review_id is present:
      the j-th review is the review of the j-th such row. */
  lemma {:induction false} CollectReviews(rows: seq<Row>, build: Row -> Result<Product, Error>)
    requires Collect(rows, build).Ok?
    ensures |Collect(rows, build).value.reviews| == |ReviewRows(rows)|
    ensures forall j :: 0 <= j < |ReviewRows(rows)| ==>
              Collect(rows, build).value.reviews[j] == BuildReview(rows[ReviewRows(rows)[j]])
  {
    if rows != [] {
      var init := rows[..|rows| - 1];
      assert forall i :: 0 <= i < |init| ==> init[i] == rows[i];
      CollectReviews(init, build);
    }
  }

  /** Every review carries its row's product_id and review_content, unchanged (an absent
      column stays distinct from an NA cell). So there are no more reviews than products,
      and each review's product_id is that of some product. */
  lemma ReviewsHaveProducts(rows: seq<Row>)
    requires BatchOf(rows).Ok?
    ensures |BatchOf(rows).value.reviews| <= |BatchOf(rows).value.products|
    ensures forall j :: 0 <= j < |BatchOf(rows).value.reviews| ==>
              var review := BatchOf(rows).value.reviews[j];
              (exists i :: 0 <= i < |rows| && rows[i].reviewId == Some(review.reviewId)
                                            && rows[i].productId == review.productId
                                            && i < |BatchOf(rows).value.products|
                                            && BatchOf(rows).value.products[i].productId == review.productId
                                            && rows[i].reviewContent == review.reviewContent)
  {
    var b := BatchOf(rows).value;
    BatchProductIds(rows);
    CollectReviews(rows, BuildProduct);
    var idx := ReviewRows(rows);
    forall j | 0 <= j < |b.reviews|
      ensures exists i :: 0 <= i < |rows| && rows[i].reviewId == Some(b.reviews[j].reviewId)
                                         && rows[i].productId == b.reviews[j].productId
                                         && i < |b.products|
                                         && b.products[i].productId == b.reviews[j].productId
                                         && rows[i].reviewContent == b.reviews[j].reviewContent
    {
      var i := idx[j];
      assert b.products[i].productId == rows[i].productId;
    }
  }
}
