/** The `categories` slice of the client store and its three reducers. */
module CategorySlice {
  import opened Common

  /** A category record as the server returns it; its fields are not inspected. */
  type CategoryBody = string

  type ErrorPayload = string

  class CategoryState {
    var category: seq<CategoryBody>
    var loading: bool
    var error: Option<ErrorPayload>

    /** `initialState`: no categories, not loading, no error. */
    constructor ()
      ensures category == [] && !loading && error == None
    {
      category := [];
      loading := false;
      error := None;
    }

    method FetchCategoryStart()
      modifies this
      ensures loading && error == None && category == old(category)
    {
      loading := true;
      error := None;
    }

    /** The list is replaced by the payload; the error is left as it was. */
    method FetchCategorySuccess(payload: seq<CategoryBody>)
      modifies this
      ensures !loading && category == payload && error == old(error)
    {
      loading := false;
      category := payload;
    }

    method FetchCategoryFailure(payload: ErrorPayload)
      modifies this
      ensures !loading && error == Some(payload) && category == old(category)
    {
      loading := false;
      error := Some(payload);
    }
  }
}
