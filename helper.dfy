/** Mapping persisted records to response shapes (helper/model.go). */
module Helper {
  import opened Model

  /** A field-by-field copy of a record into its response shape. */
  function ToCategoryResponse(category: Category): (response: CategoryResponse)
    ensures response.id == category.id && response.name == category.name
  {
    CategoryResponse(category.id, category.name)
  }

  /** The copy loses nothing: distinct records give distinct responses. */
  lemma ToCategoryResponseInjective(a: Category, b: Category)
    requires ToCategoryResponse(a) == ToCategoryResponse(b)
    ensures a == b
  {
  }

  /**
   * The list of responses for `categories`, defined the way the source's
   * loop builds it: the responses of all but the last record, then the
   * response of the last one appended.
   */
  function Responses(categories: seq<Category>): (responses: seq<CategoryResponse>)
    ensures |responses| == |categories|
  {
    if categories == [] then []
    else Responses(categories[..|categories| - 1]) + [ToCategoryResponse(categories[|categories| - 1])]
  }

  /** The mapping keeps the length, and position `i` holds the response of record `i`. */
  lemma {:induction false} ResponsesAt(categories: seq<Category>, i: int)
    requires 0 <= i < |categories|
    ensures |Responses(categories)| == |categories|
    ensures Responses(categories)[i] == ToCategoryResponse(categories[i])
  {
    var n := |categories|;
    if i < n - 1 {
      ResponsesAt(categories[..n - 1], i);
    }
  }

  /** The mapping commutes with concatenation, so it neither reorders nor drops records. */
  lemma {:induction false} ResponsesAppend(front: seq<Category>, back: seq<Category>)
    ensures Responses(front + back) == Responses(front) + Responses(back)
  {
    if back == [] {
      assert front + back == front;
    } else {
      var n := |back|;
      assert (front + back)[..|front + back| - 1] == front + back[..n - 1];
      ResponsesAppend(front, back[..n - 1]);
    }
  }

  /** ToCategoryResponses: the loop that appends one response per record, in order. */
  method ToCategoryResponses(categories: seq<Category>) returns (responses: seq<CategoryResponse>)
    ensures responses == Responses(categories)
    ensures |responses| == |categories|
    ensures forall i :: 0 <= i < |categories| ==> responses[i] == ToCategoryResponse(categories[i])
  {
    responses := [];
    for i := 0 to |categories|
      invariant responses == Responses(categories[..i])
    {
      assert categories[..i + 1][..i] == categories[..i];
      responses := responses + [ToCategoryResponse(categories[i])];
    }
    assert categories[..|categories|] == categories;
    forall i | 0 <= i < |categories|
      ensures responses[i] == ToCategoryResponse(categories[i])
    {
      ResponsesAt(categories, i);
    }
  }
}
