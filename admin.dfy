/**
  The state of the product admin page (the `App` component) and its event
  handlers. Every `useState` cell the handlers touch is a field; every handler
  is a method that updates those fields and hands back what it sends to the
  product API. The API's answers are parameters, and each handler runs
  start to finish as one step.
*/
module Admin {
  import opened Wrappers
  import opened Catalog
  import Strings

  /** The body of a `GET .../admin/products?page=N` answer; either part may be missing. */
  datatype ListResponse = ListResponse(products: Option<seq<Product>>, pagination: Option<Pagination>)

  /** A save sent by the form: `POST .../admin/product`, or `PUT .../admin/product/{id}`. */
  datatype SaveRequest = Create(data: Draft) | Update(id: string, data: Draft)

  /** The part of the state the product form owns. */
  datatype FormState = FormState(draft: Draft, showModal: bool, isEditing: bool, editingId: string)

  /** The form with its modal closed: empty draft, no product under edit. */
  const ClosedForm: FormState := FormState(EmptyDraft, false, false, "")

  /** The first page, which `getData()` fetches when called without a page. */
  const FirstPage: int := 1

  class ProductAdmin {
    var isAuth: bool
    var products: seq<Product>
    var tempProduct: Option<Product>
    var newProduct: Draft
    var showModal: bool
    var isEditing: bool
    var editingId: string
    var showDetailModal: bool
    var currentPage: int
    var pagination: Option<Pagination>

    function Form(): FormState
      reads this
    {
      FormState(newProduct, showModal, isEditing, editingId)
    }

    /**
      The console's invariant: the previews mirror their URL fields; no product
      id is kept outside edit mode; and whenever the form modal is closed the
      form is back to `ClosedForm`, so opening "new product" starts clean.
    */
    ghost predicate Valid()
      reads this
    {
      && PreviewsInSync(newProduct)
      && (!isEditing ==> editingId == "")
      && (!showModal ==> Form() == ClosedForm)
    }

    /** The request the form's submit button sends: an update of `editingId` in edit mode, a create otherwise. */
    function PendingSave(): (req: SaveRequest)
      reads this
      ensures req.Update? <==> isEditing
      ensures req.Update? ==> req.id == editingId
      ensures req.data == newProduct
    {
      if isEditing then Update(editingId, newProduct) else Create(newProduct)
    }

    /** The initial value of every state cell. */
    constructor ()
      ensures Valid()
      ensures !isAuth && products == [] && tempProduct == None && !showDetailModal
      ensures Form() == ClosedForm
      ensures currentPage == FirstPage && pagination == None
    {
      isAuth := false;
      products := [];
      tempProduct := None;
      newProduct := EmptyDraft;
      showModal := false;
      isEditing := false;
      editingId := "";
      showDetailModal := false;
      currentPage := FirstPage;
      pagination := None;
    }

    /**
      The session check on load. With no token in `cookie` the console stays
      signed out and sends nothing; otherwise it sends the token to the
      session-check endpoint and, when that succeeds, signs in and fetches page 1.
    */
    method CheckLoginStatus(cookie: string, checkSucceeded: bool) returns (auth: Option<string>, fetch: Option<int>)
      modifies this`isAuth
      ensures old(Valid()) ==> Valid()
      ensures auth == Strings.CookieToken(cookie)
      ensures isAuth <==> auth.Some? && checkSucceeded
      ensures fetch == if isAuth then Some(FirstPage) else None
    {
      auth := Strings.CookieToken(cookie);
      if auth.None? {
        isAuth := false;
        fetch := None;
        return;
      }
      if checkSucceeded {
        isAuth := true;
        fetch := Some(FirstPage);
      } else {
        isAuth := false;
        fetch := None;
      }
    }

    /**
      The answer to the sign-in form. Any answer signs in and fetches page 1;
      `answered` is false only when the request failed, which changes nothing.
      The token the answer carries feeds the cookie and the default header,
      which are not part of this model.
    */
    method SignIn(answered: bool) returns (fetch: Option<int>)
      modifies this`isAuth
      ensures old(Valid()) ==> Valid()
      ensures answered ==> isAuth && fetch == Some(FirstPage)
      ensures !answered ==> isAuth == old(isAuth) && fetch == None
    {
      fetch := None;
      if answered {
        fetch := Some(FirstPage);
        isAuth := true;
      }
    }

    /**
      A finished `getData`: an answer replaces the product list (an absent
      list reads as []) and the pagination together; a failed request leaves both.
    */
    method ApplyPage(response: Option<ListResponse>)
      modifies this`products, this`pagination
      ensures old(Valid()) ==> Valid()
      ensures response.None? ==> products == old(products) && pagination == old(pagination)
      ensures response.Some? ==> products == response.value.products.GetOr([])
      ensures response.Some? ==> pagination == response.value.pagination
    {
      if response.Some? {
        products := response.value.products.GetOr([]);
        pagination := response.value.pagination;
      }
    }

    /** A page button: records the page and fetches it, with no range check. */
    method ChangePage(page: int) returns (fetch: int)
      modifies this`currentPage
      ensures old(Valid()) ==> Valid()
      ensures currentPage == page && fetch == page
    {
      currentPage := page;
      fetch := page;
    }

    /**
      The "new product" button only opens the modal; the invariant is what
      makes the form it opens empty and in create mode.
    */
    method OpenNewProduct()
      requires Valid()
      modifies this`showModal
      ensures Valid() && showModal
      ensures old(!showModal) ==> Form() == ClosedForm.(showModal := true)
      ensures old(!showModal) ==> PendingSave() == Create(EmptyDraft)
    {
      showModal := true;
    }

    /** Edit a listed product: the form opens in edit mode for `p.id`, with `p`'s fields. */
    method Edit(p: Product)
      requires Valid()
      modifies this`newProduct, this`showModal, this`isEditing, this`editingId
      ensures Valid()
      ensures Form() == FormState(DraftOf(p), true, true, p.id)
      ensures PendingSave() == Update(p.id, DraftOf(p))
    {
      isEditing := true;
      editingId := p.id;
      newProduct := DraftOf(p);
      showModal := true;
    }

    /** The close glyph and the "close" button: the form goes back to `ClosedForm`, whatever it held. */
    method CloseModal()
      modifies this`newProduct, this`showModal, this`isEditing, this`editingId
      ensures Valid()
      ensures Form() == ClosedForm
    {
      showModal := false;
      isEditing := false;
      editingId := "";
      newProduct := EmptyDraft;
    }

    /** A keystroke in the form's input `name`, handled by `handleProductChange`. */
    method ChangeField(name: Key, value: string, parse: string -> int)
      requires Valid() && showModal && IsInputName(name)
      modifies this`newProduct
      ensures Valid()
      ensures newProduct == WithInput(old(newProduct), name, value, parse)
    {
      newProduct := WithInput(newProduct, name, value, parse);
    }

    /** One of the two `is_enabled` radio buttons. */
    method ChooseEnabled(enabled: bool)
      requires Valid() && showModal
      modifies this`newProduct
      ensures Valid()
      ensures newProduct == WithEnabled(old(newProduct), enabled)
    {
      newProduct := WithEnabled(newProduct, enabled);
    }

    /** The "remove" button of the main image. */
    method RemoveImage()
      requires Valid() && showModal
      modifies this`newProduct
      ensures Valid()
      ensures newProduct == WithImage(old(newProduct), "")
    {
      newProduct := WithImage(newProduct, "");
    }

    /**
      The file input of the main image. Without a file, or without a session
      token in `cookie`, nothing is sent and nothing changes. Otherwise the file
      goes out with the token as its `Authorization` header, and a successful
      answer carrying a non-empty URL becomes the main image and its preview.
    */
    method UploadImage(hasFile: bool, cookie: string, succeeded: bool, imageUrl: Option<string>)
      returns (auth: Option<string>)
      requires Valid() && showModal
      modifies this`newProduct
      ensures Valid()
      ensures auth == if hasFile then Strings.CookieToken(cookie) else None
      ensures newProduct == if auth.Some? && succeeded && imageUrl.Some? && imageUrl.value != ""
                            then WithImage(old(newProduct), imageUrl.value)
                            else old(newProduct)
    {
      auth := None;
      if !hasFile {
        return;
      }
      auth := Strings.CookieToken(cookie);
      if auth.None? {
        return;
      }
      if succeeded && imageUrl.Some? && imageUrl.value != "" {
        newProduct := WithImage(newProduct, imageUrl.value);
      }
    }

    /**
      The form's submit: `PendingSave()` goes out, and a successful answer
      fetches page 1 and closes the form back to `ClosedForm`. A failed
      answer leaves the form as it was, ready for another try.
    */
    method Submit(succeeded: bool) returns (req: SaveRequest, fetch: Option<int>)
      requires Valid() && showModal
      modifies this`newProduct, this`showModal, this`isEditing, this`editingId
      ensures Valid()
      ensures req == old(PendingSave())
      ensures fetch == if succeeded then Some(FirstPage) else None
      ensures succeeded ==> Form() == ClosedForm
      ensures !succeeded ==> Form() == old(Form())
    {
      req := PendingSave();
      fetch := None;
      if isEditing {
        // handleUpdate
        if succeeded {
          fetch := Some(FirstPage);
          showModal := false;
          isEditing := false;
          editingId := "";
          newProduct := EmptyDraft;
        }
      } else {
        // handleAddProduct: leaves the edit mode cells alone
        if succeeded {
          fetch := Some(FirstPage);
          showModal := false;
          newProduct := EmptyDraft;
        }
      }
    }

    /**
      The delete button of a row: nothing is sent unless the operator confirms;
      a successful delete fetches page 1. No state cell changes.
    */
    method Delete(id: string, confirmed: bool, succeeded: bool) returns (req: Option<string>, fetch: Option<int>)
      ensures req.Some? <==> confirmed
      ensures req.Some? ==> req.value == id
      ensures fetch.Some? <==> confirmed && succeeded
      ensures fetch.Some? ==> fetch.value == FirstPage
    {
      req, fetch := None, None;
      if confirmed {
        req := Some(id);
        if succeeded {
          fetch := Some(FirstPage);
        }
      }
    }

    /** The "view" button of a row opens the detail modal on that product. */
    method ShowDetail(p: Product)
      modifies this`tempProduct, this`showDetailModal
      ensures old(Valid()) ==> Valid()
      ensures tempProduct == Some(p) && showDetailModal
    {
      tempProduct := Some(p);
      showDetailModal := true;
    }

    /** The detail modal's close glyph and "close" button. */
    method CloseDetail()
      modifies this`showDetailModal
      ensures old(Valid()) ==> Valid()
      ensures !showDetailModal
    {
      showDetailModal := false;
    }

    /** The detail modal's "edit" button: edit the shown product, then close the detail modal. */
    method EditFromDetail()
      requires Valid() && showDetailModal && tempProduct.Some?
      modifies this`newProduct, this`showModal, this`isEditing, this`editingId, this`showDetailModal
      ensures Valid() && !showDetailModal
      ensures Form() == FormState(DraftOf(tempProduct.value), true, true, tempProduct.value.id)
    {
      Edit(tempProduct.value);
      showDetailModal := false;
    }
  }

  /** Closing the form twice leaves it as closing it once: both give `ClosedForm`. */
  method CloseModalTwice(app: ProductAdmin)
    modifies app`newProduct, app`showModal, app`isEditing, app`editingId
    ensures app.Form() == ClosedForm
  {
    app.CloseModal();
    var once := app.Form();
    app.CloseModal();
    assert app.Form() == once;
  }
}
