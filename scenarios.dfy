/**
 * The integration tests of test/category_controller_test.go restated
 * against the model: each method starts from a truncated table, runs the
 * test's steps through the repository and the service (validation set to
 * the name-required rule) and states what the test observes.
 */
module Scenarios {
  import opened Wrappers
  import opened Model
  import opened Table
  import opened Repository
  import opened Service

  /** Creating "Fashion" yields that name and a positive id. */
  method CreateSucceeds() returns (response: CategoryResponse)
    ensures response.name == "Fashion" && response.id > 0
  {
    var repository := new CategoryRepository();
    var service := new CategoryService(repository, NameRequired);
    response := service.Create(CategoryCreateRequest("Fashion"));
  }

  /** The service stores an empty name on create: it never validates a create request. */
  method CreateEmptyNameStored() returns (response: CategoryResponse, stored: seq<Category>)
    ensures response == CategoryResponse(1, "")
    ensures stored == [Category(1, "")]
  {
    var repository := new CategoryRepository();
    var service := new CategoryService(repository, NameRequired);
    response := service.Create(CategoryCreateRequest(""));
    stored := repository.FindAll();
  }

  /** Save "Gadget", then update it through the service: success, and a lookup sees the new name. */
  method UpdateSucceeds() returns (result: ServiceResult<CategoryResponse>, found: ServiceResult<CategoryResponse>)
    ensures result.Ok? && result.value.name == "Gadget update"
    ensures found == result
  {
    var repository := new CategoryRepository();
    var saved := repository.Save(Category(0, "Gadget"));
    var service := new CategoryService(repository, NameRequired);
    result := service.Update(CategoryUpdateRequest(saved.id, "Gadget update"));
    assert repository.rows == [Category(saved.id, "Gadget update")];
    found := service.FindById(saved.id);
  }

  /** Updating with an empty name fails validation and the saved row keeps its name. */
  method UpdateEmptyNameFails() returns (result: ServiceResult<CategoryResponse>, stored: seq<Category>)
    ensures result == ValidationFailed
    ensures stored == [Category(1, "Gadget")]
  {
    var repository := new CategoryRepository();
    var saved := repository.Save(Category(0, "Gadget"));
    var service := new CategoryService(repository, NameRequired);
    result := service.Update(CategoryUpdateRequest(saved.id, ""));
    stored := repository.FindAll();
  }

  /** Updating an id no row has still succeeds and creates no row. */
  method UpdateMissingIdSilent() returns (result: ServiceResult<CategoryResponse>, stored: seq<Category>)
    ensures result == Ok(CategoryResponse(100, "Other"))
    ensures stored == [Category(1, "Gadget")]
  {
    var repository := new CategoryRepository();
    var saved := repository.Save(Category(0, "Gadget"));
    var service := new CategoryService(repository, NameRequired);
    result := service.Update(CategoryUpdateRequest(100, "Other"));
    UpdateMissingUnchanged([saved], 100, "Other");
    stored := repository.FindAll();
  }

  /** Looking up the id a save returned gives the saved name back (the round trip). */
  method GetSucceeds() returns (saved: Category, result: ServiceResult<CategoryResponse>)
    ensures result == Ok(CategoryResponse(saved.id, "Gadget"))
  {
    var repository := new CategoryRepository();
    saved := repository.Save(Category(0, "Gadget"));
    var service := new CategoryService(repository, NameRequired);
    assert repository.rows[0] == saved;
    result := service.FindById(saved.id);
    assert result.Ok?;
  }

  /** Looking up id 10000 in a table holding one row fails with the repository's message. */
  method GetMissingFails() returns (result: ServiceResult<CategoryResponse>)
    ensures result == NotFound("category not found")
  {
    var repository := new CategoryRepository();
    var saved := repository.Save(Category(0, "Gadget"));
    var service := new CategoryService(repository, NameRequired);
    result := service.FindById(10000);
  }

  /** Deleting the saved row empties the table, and deleting it again changes nothing. */
  method DeleteSucceeds() returns (afterOnce: seq<Category>, afterTwice: seq<Category>)
    ensures afterOnce == [] && afterTwice == []
  {
    var repository := new CategoryRepository();
    var saved := repository.Save(Category(0, "Gadget"));
    var service := new CategoryService(repository, NameRequired);
    service.Delete(saved.id);
    afterOnce := repository.FindAll();
    service.Delete(saved.id);
    afterTwice := repository.FindAll();
  }

  /** Deleting an id no row has is not an error and leaves the table as it was. */
  method DeleteMissingSilent() returns (stored: seq<Category>)
    ensures stored == [Category(1, "Gadget")]
  {
    var repository := new CategoryRepository();
    var saved := repository.Save(Category(0, "Gadget"));
    var service := new CategoryService(repository, NameRequired);
    service.Delete(100);
    DeleteMissingUnchanged([saved], 100);
    stored := repository.FindAll();
  }

  /** Two saves, then the list: the first saved id comes first, the second one second. */
  method ListInCreationOrder() returns (first: Category, second: Category, listed: seq<CategoryResponse>)
    ensures |listed| == 2
    ensures listed[0].id == first.id && listed[1].id == second.id
    ensures first.id < second.id
  {
    var repository := new CategoryRepository();
    first := repository.Save(Category(0, "Gadget"));
    second := repository.Save(Category(0, "Gadget"));
    var service := new CategoryService(repository, NameRequired);
    listed := service.FindAll();
  }
}
