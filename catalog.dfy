/**
  The product records of the admin console: a `Product` as the product API
  returns it, and the `Draft` behind the create/edit form (the `newProduct`
  state cell), with the record updates the form's handlers apply to it.
  Each update is the function passed to `setNewProduct(prev => ...)`.
*/
module Catalog {
  import opened Wrappers
  import Strings

  /**
    A product as listed by the API. `unit`, `description`, `content` and
    `imagesUrl` may be missing from a server record; `is_enabled` is 1 or 0.
  */
  datatype Product = Product(
    id: string,
    title: string,
    category: string,
    unit: Option<string>,
    originPrice: int,
    price: int,
    isEnabled: int,
    description: Option<string>,
    content: Option<string>,
    imageUrl: string,
    imagesUrl: Option<seq<string>>)

  /** The pagination summary that comes with a page of products. */
  datatype Pagination = Pagination(totalPages: int, currentPage: int, hasPre: bool, hasNext: bool)

  /** The form's working copy: a product's fields plus the two preview fields. */
  datatype Draft = Draft(
    title: string,
    category: string,
    originPrice: int,
    price: int,
    unit: string,
    description: string,
    content: string,
    isEnabled: int,
    imageUrl: string,
    imagesUrl: seq<string>,
    imagePreview: string,
    imagesPreview: seq<string>)

  /** The draft of a fresh "new product" form: empty strings, zero prices, enabled, no images. */
  const EmptyDraft: Draft := Draft("", "", 0, 0, "", "", "", 1, "", [], "", [])

  /** The keys of a draft, as the form's `name` attributes spell them. */
  datatype Key =
    | Title | Category | OriginPrice | Price | Unit | Description | Content
    | IsEnabled | ImageUrl | ImagesUrl | ImagePreview | ImagesPreview

  /** The value stored under a key. */
  datatype Value = Str(s: string) | Num(n: int) | Urls(urls: seq<string>)

  /** `draft[key]` */
  function Get(d: Draft, k: Key): Value {
    match k
    case Title => Str(d.title)
    case Category => Str(d.category)
    case OriginPrice => Num(d.originPrice)
    case Price => Num(d.price)
    case Unit => Str(d.unit)
    case Description => Str(d.description)
    case Content => Str(d.content)
    case IsEnabled => Num(d.isEnabled)
    case ImageUrl => Str(d.imageUrl)
    case ImagesUrl => Urls(d.imagesUrl)
    case ImagePreview => Str(d.imagePreview)
    case ImagesPreview => Urls(d.imagesPreview)
  }

  /** `e` is `d` with at most the keys in `changed` replaced. */
  predicate OnlyChanged(d: Draft, e: Draft, changed: set<Key>) {
    forall k :: k !in changed ==> Get(d, k) == Get(e, k)
  }

  /** Each preview field shows exactly its URL field. */
  predicate PreviewsInSync(d: Draft) {
    d.imagePreview == d.imageUrl && d.imagesPreview == d.imagesUrl
  }

  /** The form's inputs that render as `type="number"`; their text goes through `Number(value)`. */
  predicate IsNumberInput(k: Key) {
    k == OriginPrice || k == Price
  }

  /**
    The names `handleProductChange` handles. The form's inputs are title,
    category, unit, origin_price, price, description, content and imagesUrl.
    The handler also has an `imageUrl` branch, kept here as written, although
    no rendered input carries that name (the main image is a file input).
  */
  predicate IsInputName(k: Key) {
    k != IsEnabled && k != ImagePreview && k != ImagesPreview
  }

  /** The plain inputs: the generic branch of `handleProductChange` stores their text as typed. */
  predicate IsTextInput(k: Key) {
    IsInputName(k) && !IsNumberInput(k) && k != ImageUrl && k != ImagesUrl
  }

  /**
    Set the main image: a finished upload, the "remove" button and the
    `imageUrl` branch of `handleProductChange` all write the same value to
    `imageUrl` and `imagePreview`.
  */
  function WithImage(d: Draft, url: string): (r: Draft)
    ensures r.imageUrl == url && r.imagePreview == url
    ensures OnlyChanged(d, r, {ImageUrl, ImagePreview})
    ensures d.imagesPreview == d.imagesUrl ==> PreviewsInSync(r)
  {
    d.(imageUrl := url, imagePreview := url)
  }

  /** The `is_enabled` radio buttons: `parseInt("1")` or `parseInt("0")`. */
  function WithEnabled(d: Draft, enabled: bool): (r: Draft)
    ensures r.isEnabled == (if enabled then 1 else 0)
    ensures OnlyChanged(d, r, {IsEnabled})
    ensures PreviewsInSync(d) ==> PreviewsInSync(r)
  {
    d.(isEnabled := if enabled then 1 else 0)
  }

  /** The generic branch of `handleProductChange` for a plain input: store the text as typed. */
  function WithText(d: Draft, name: Key, value: string): (r: Draft)
    requires IsTextInput(name)
    ensures Get(r, name) == Str(value)
    ensures OnlyChanged(d, r, {name})
  {
    match name
    case Title => d.(title := value)
    case Category => d.(category := value)
    case Unit => d.(unit := value)
    case Description => d.(description := value)
    case Content => d.(content := value)
  }

  /** The generic branch of `handleProductChange` for a number input: store the coerced number. */
  function WithNumber(d: Draft, name: Key, n: int): (r: Draft)
    requires IsNumberInput(name)
    ensures Get(r, name) == Num(n)
    ensures OnlyChanged(d, r, {name})
  {
    if name == OriginPrice then d.(originPrice := n) else d.(price := n)
  }

  /** The `imagesUrl` branch of `handleProductChange`: the same list goes to both image-list fields. */
  function WithImages(d: Draft, urls: seq<string>): (r: Draft)
    ensures r.imagesUrl == urls && r.imagesPreview == urls
    ensures OnlyChanged(d, r, {ImagesUrl, ImagesPreview})
    ensures d.imagePreview == d.imageUrl ==> PreviewsInSync(r)
  {
    d.(imagesUrl := urls, imagesPreview := urls)
  }

  /**
    The update of `handleProductChange` for input `name` holding `value`.
    `parse` stands for JavaScript's `Number(value)`, applied to the number inputs.
  */
  function WithInput(d: Draft, name: Key, value: string, parse: string -> int): (r: Draft)
    requires IsInputName(name)
    ensures name == ImageUrl ==> r.imageUrl == value && r.imagePreview == value
    ensures name == ImageUrl ==> OnlyChanged(d, r, {ImageUrl, ImagePreview})
    ensures name == ImagesUrl ==> r.imagesUrl == Strings.SplitImageUrls(value) && r.imagesPreview == r.imagesUrl
    ensures name == ImagesUrl ==> OnlyChanged(d, r, {ImagesUrl, ImagesPreview})
    ensures IsNumberInput(name) ==> Get(r, name) == Num(parse(value)) && OnlyChanged(d, r, {name})
    ensures IsTextInput(name) ==> Get(r, name) == Str(value) && OnlyChanged(d, r, {name})
    ensures PreviewsInSync(d) ==> PreviewsInSync(r)
  {
    if name == ImageUrl then WithImage(d, value)
    else if name == ImagesUrl then WithImages(d, Strings.SplitImageUrls(value))
    else if IsNumberInput(name) then WithNumber(d, name, parse(value))
    else WithText(d, name, value)
  }

  /**
    The draft `handleEdit` builds from a listed product: every field copied,
    a missing `unit`, `description` or `content` read as "", missing
    `imagesUrl` as [], and each preview taken from its URL field.
  */
  function DraftOf(p: Product): (r: Draft)
    ensures PreviewsInSync(r)
    ensures r.title == p.title && r.category == p.category
    ensures r.originPrice == p.originPrice && r.price == p.price && r.isEnabled == p.isEnabled
    ensures p.unit.Some? ==> r.unit == p.unit.value
    ensures p.description.Some? ==> r.description == p.description.value
    ensures p.content.Some? ==> r.content == p.content.value
    ensures p.unit.None? ==> r.unit == ""
    ensures p.description.None? ==> r.description == ""
    ensures p.content.None? ==> r.content == ""
    ensures r.imageUrl == p.imageUrl
    ensures r.imagesUrl == (if p.imagesUrl.Some? then p.imagesUrl.value else [])
  {
    Draft(
      p.title, p.category, p.originPrice, p.price,
      p.unit.GetOr(""), p.description.GetOr(""), p.content.GetOr(""),
      p.isEnabled, p.imageUrl, p.imagesUrl.GetOr([]),
      p.imageUrl, p.imagesUrl.GetOr([]))
  }

  /**
    Typing the textarea's own display back into it (`imagesUrl.join(', ')`)
    leaves a draft unchanged when its previews are in sync and its image list
    is clean (every URL non-empty, trimmed and comma-free). A draft that
    `handleEdit` seeds from server data may hold a list that is not clean;
    the first change of the `imagesUrl` textarea then replaces it by a clean
    one (`TextareaChangeCleans`), while a change of any other input keeps it.
  */
  lemma {:induction false} RetypingImagesUrlChangesNothing(d: Draft, parse: string -> int)
    requires PreviewsInSync(d)
    requires Strings.AllClean(d.imagesUrl)
    ensures WithInput(d, ImagesUrl, Strings.Join(d.imagesUrl, ", "), parse) == d
  {
    Strings.SplitImageUrlsOfJoin(d.imagesUrl);
  }

  /** A change of the `imagesUrl` textarea leaves a clean image list, whatever the draft held before. */
  lemma {:induction false} TextareaChangeCleans(d: Draft, value: string, parse: string -> int)
    ensures Strings.AllClean(WithInput(d, ImagesUrl, value, parse).imagesUrl)
  {
    Strings.SplitImageUrlsAreClean(value);
  }

  /**
    A comma typed after the textarea's display is swallowed: the list is
    normalised again and shown as before, so the draft does not change.
  */
  lemma {:induction false} TrailingCommaSwallowed(d: Draft, parse: string -> int)
    requires PreviewsInSync(d)
    requires Strings.AllClean(d.imagesUrl)
    ensures WithInput(d, ImagesUrl, Strings.Join(d.imagesUrl, ", ") + ",", parse) == d
  {
    var shown := Strings.Join(d.imagesUrl, ", ");
    assert Strings.SplitImageUrls(shown + ",") == Strings.SplitImageUrls(shown) by {
      assert shown + "," == shown + "," + "";
      Strings.SplitImageUrlsAround(shown, "");
      Strings.SplitImageUrlsOfOne("");
    }
    RetypingImagesUrlChangesNothing(d, parse);
  }

  /** Every field change keeps the clean-URL shape of `imagesUrl`. */
  lemma {:induction false} WithInputKeepsUrlsClean(d: Draft, name: Key, value: string, parse: string -> int)
    requires IsInputName(name)
    requires Strings.AllClean(d.imagesUrl)
    ensures Strings.AllClean(WithInput(d, name, value, parse).imagesUrl)
  {
    var r := WithInput(d, name, value, parse);
    if name == ImagesUrl {
      Strings.SplitImageUrlsAreClean(value);
    } else {
      assert Get(r, ImagesUrl) == Get(d, ImagesUrl);
    }
  }
}
