/**
 * CategoryService (service/category_service_impl.go): orchestration over
 * the repository. Go's panics become the failure cases of ServiceResult;
 * validation is the rule the service is constructed with.
 */
module Service {
  import opened Wrappers
  import opened Model
  import opened Table
  import opened Helper
  import opened Repository

  /** A service outcome: a value, or the typed failure the source raises with panic. */
  datatype ServiceResult<T> = Ok(value: T) | ValidationFailed | NotFound(message: string)

  /** The validation rule the test suite exercises: the name is required, so it must not be empty. */
  predicate NameRequired(request: CategoryUpdateRequest)
  {
    request.name != ""
  }

  class CategoryService {
    const repository: CategoryRepository
    /** The structural check of an update request (true means it passes). */
    const validate: CategoryUpdateRequest -> bool

    constructor (repository: CategoryRepository, validate: CategoryUpdateRequest -> bool)
      ensures this.repository == repository && this.validate == validate
    {
      this.repository := repository;
      this.validate := validate;
    }

    /**
     * Create: saves a record carrying the request's name and the zero id,
     * without validating, and returns the response for the saved record.
     */
    method Create(request: CategoryCreateRequest) returns (response: CategoryResponse)
      requires repository.Valid()
      modifies repository
      ensures repository.Valid()
      ensures response == CategoryResponse(old(repository.nextId), request.name)
      ensures repository.rows == old(repository.rows) + [Category(response.id, response.name)]
      ensures repository.nextId == old(repository.nextId) + 1
    {
      var category := Category(0, request.name);
      category := repository.Save(category);
      response := ToCategoryResponse(category);
    }

    /**
     * Update: validation first; a failing request aborts before the
     * repository is touched. A passing one is written through and its own
     * id and name come back, whether or not a row had that id.
     */
    method Update(request: CategoryUpdateRequest) returns (result: ServiceResult<CategoryResponse>)
      requires repository.Valid()
      modifies repository
      ensures repository.Valid()
      ensures !validate(request) ==> result == ValidationFailed
      ensures !validate(request) ==> repository.rows == old(repository.rows)
      ensures validate(request) ==> result == Ok(CategoryResponse(request.id, request.name))
      ensures validate(request) ==>
        repository.rows == UpdateWhere(old(repository.rows), request.id, request.name)
      ensures repository.nextId == old(repository.nextId)
    {
      if !validate(request) {
        result := ValidationFailed;
        return;
      }
      var category := Category(request.id, request.name);
      category := repository.Update(category);
      result := Ok(ToCategoryResponse(category));
    }

    /** Delete: forwards the id to the repository; it never fails. */
    method Delete(categoryId: int)
      requires repository.Valid()
      modifies repository
      ensures repository.Valid()
      ensures repository.rows == DeleteWhere(old(repository.rows), categoryId)
      ensures repository.nextId == old(repository.nextId)
    {
      repository.Delete(categoryId);
    }

    /**
     * FindById: a repository miss becomes NotFound carrying the
     * repository's message; a hit becomes the response of that row.
     */
    method FindById(categoryId: int) returns (result: ServiceResult<CategoryResponse>)
      requires repository.Valid()
      ensures result.NotFound? <==> !HasId(repository.rows, categoryId)
      ensures result.NotFound? ==> result.message == NotFoundMessage
      ensures result.Ok? ==> result.value.id == categoryId
      ensures result.Ok? ==> Category(result.value.id, result.value.name) in repository.rows
      ensures !result.ValidationFailed?
    {
      var category, err := repository.FindById(categoryId);
      if err.Some? {
        result := NotFound(err.value);
      } else {
        result := Ok(ToCategoryResponse(category));
      }
    }

    /** FindAll: the responses of every row, element by element, in table order. */
    method FindAll() returns (responses: seq<CategoryResponse>)
      ensures responses == Responses(repository.rows)
      ensures |responses| == |repository.rows|
      ensures forall i :: 0 <= i < |responses| ==> responses[i] == ToCategoryResponse(repository.rows[i])
    {
      var categories := repository.FindAll();
      responses := ToCategoryResponses(categories);
    }
  }
}
