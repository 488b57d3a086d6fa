/** The admin page: who may see the panel, the product form (its fields, its image
    list and what submitting it sends to the catalog API), and the dialogs of the
    panel. */
module AdminPanel {
  import opened Wrappers
  import opened Backend
  import Text
  import BlobStorage

  // ---- Access gating ----

  /** The four things the page can render. */
  datatype AdminView = AuthRequired | Loading | AccessDenied | Panel

  /** The gating branches, in their order: no identity, then the admin check still
      loading, then a falsy isAdmin (false, or not yet answered), then the panel. */
  function View(isAuthenticated: bool, isAdminLoading: bool, isAdmin: Option<bool>): (r: AdminView)
    ensures r == AuthRequired <==> !isAuthenticated
    ensures r == Loading <==> isAuthenticated && isAdminLoading
    ensures r == AccessDenied <==> isAuthenticated && !isAdminLoading && isAdmin != Some(true)
    ensures r == Panel <==> isAuthenticated && !isAdminLoading && isAdmin == Some(true)
  {
    if !isAuthenticated then AuthRequired
    else if isAdminLoading then Loading
    else if isAdmin != Some(true) then AccessDenied
    else Panel
  }

  // ---- The product form ----

  /** The text fields of the form, as typed. */
  datatype FormFields = FormFields(
    name: string,
    description: string,
    category: string,
    price: string,
    weight: string,
    power: string,
    dimensions: string,
    additional: string)

  /** Number(n).toString() for an integer: its decimal digits, with a minus sign
      when negative. */
  function DecimalString(n: int): (r: string)
    ensures r != []
  {
    if n < 0 then "-" + Digits(-n) else Digits(n)
  }

  function Digits(n: nat): (r: string)
    ensures r != [] && forall k :: 0 <= k < |r| ==> '0' <= r[k] <= '9'
    ensures |r| > 1 ==> r[0] != '0'
  {
    if n < 10 then [DigitChar(n)] else Digits(n / 10) + [DigitChar(n % 10)]
  }

  function DigitChar(d: nat): (c: char)
    requires d < 10
    ensures '0' <= c <= '9'
  {
    (48 + d) as char
  }

  /** The value of a string of decimal digits. */
  function DigitsValue(s: string): nat
    requires forall k :: 0 <= k < |s| ==> '0' <= s[k] <= '9'
  {
    if s == [] then 0 else DigitsValue(s[..|s| - 1]) * 10 + (s[|s| - 1] as int - 48)
  }

  /** Reading the digits back gives the number. */
  lemma {:induction false} DigitsRoundTrip(n: nat)
    ensures DigitsValue(Digits(n)) == n
  {
    if n >= 10 {
      DigitsRoundTrip(n / 10);
      var s := Digits(n);
      assert s[..|s| - 1] == Digits(n / 10);
    }
  }

  /** The form's initial fields: the edited product's, or empty ones when adding.
      A missing "additional" specification starts as "". */
  function InitialFields(product: Option<Product>): (r: FormFields)
    ensures product.None? ==> r == FormFields("", "", "", "", "", "", "", "")
    ensures product.Some? ==>
      && r.name == product.value.name && r.description == product.value.description
      && r.category == product.value.category
      && r.weight == product.value.specifications.weight
      && r.power == product.value.specifications.power
      && r.dimensions == product.value.specifications.dimensions
      && (product.value.specifications.additional.Some? ==> r.additional == product.value.specifications.additional.value)
      && (product.value.specifications.additional.None? ==> r.additional == "")
      && r.price != [] && r.price == DecimalString(product.value.price)
  {
    match product
    case None => FormFields("", "", "", "", "", "", "", "")
    case Some(p) =>
      FormFields(p.name, p.description, p.category, DecimalString(p.price),
                 p.specifications.weight, p.specifications.power, p.specifications.dimensions,
                 if p.specifications.additional.Some? then p.specifications.additional.value else "")
  }

  /** The form's initial images: the edited product's, or none. */
  function InitialImages(product: Option<Product>): (r: seq<ImageUrl>)
    ensures product.None? ==> r == []
    ensures product.Some? ==> r == product.value.images
  {
    if product.Some? then product.value.images else []
  }

  /** Every required field is filled: the price is not empty (it is not trimmed)
      and no other required field is blank; "additional" is optional. */
  predicate RequiredFilled(f: FormFields)
  {
    && Text.Trim(f.name) != [] && Text.Trim(f.description) != [] && Text.Trim(f.category) != []
    && f.price != []
    && Text.Trim(f.weight) != [] && Text.Trim(f.power) != [] && Text.Trim(f.dimensions) != []
  }

  /** The arguments of addProduct, and of updateProduct after the id. The price is
      carried as the text the number was parsed from. */
  datatype ProductRequest = ProductRequest(
    name: string,
    description: string,
    specifications: Specifications,
    category: Category,
    priceText: string,
    imageUrls: seq<ImageUrl>)

  /** What submitting does: nothing but a toast, or one addProduct or updateProduct call. */
  datatype Submission = Rejected | Add(request: ProductRequest) | Update(id: ProductId, request: ProductRequest)

  /** handleSubmit: reject unless every required field is filled; otherwise update
      the edited product, or add a new one, with the fields as typed (not trimmed),
      an empty "additional" sent as absent, and the current images. */
  function Submit(product: Option<Product>, f: FormFields, images: seq<ImageUrl>): (r: Submission)
    ensures r == Rejected <==> !RequiredFilled(f)
    ensures r.Add? <==> RequiredFilled(f) && product.None?
    ensures r.Update? <==> RequiredFilled(f) && product.Some?
    ensures r.Update? ==> r.id == product.value.id
    ensures r != Rejected ==>
      && r.request.imageUrls == images
      && r.request.name == f.name && r.request.description == f.description
      && r.request.category == f.category && r.request.priceText == f.price
      && r.request.specifications.weight == f.weight
      && r.request.specifications.power == f.power
      && r.request.specifications.dimensions == f.dimensions
      && (r.request.specifications.additional.None? <==> f.additional == "")
      && (f.additional != "" ==> r.request.specifications.additional == Some(f.additional))
  {
    if !RequiredFilled(f) then Rejected
    else
      var specifications := Specifications(f.weight, f.power,
                                           if f.additional == "" then None else Some(f.additional),
                                           f.dimensions);
      var request := ProductRequest(f.name, f.description, specifications, f.category, f.price, images);
      if product.Some? then Update(product.value.id, request) else Add(request)
  }

  /** An untouched add form is rejected. */
  lemma UntouchedAddFormRejected()
    ensures Submit(None, InitialFields(None), InitialImages(None)) == Rejected
  {
    Text.TrimEmptyIffBlank("");
  }

  /** Saving an edit form left as opened updates the same product with its own
      fields and images, except that an "additional" of "" is sent as absent. */
  lemma UnchangedEditResubmits(p: Product)
    requires RequiredFilled(InitialFields(Some(p)))
    ensures Submit(Some(p), InitialFields(Some(p)), InitialImages(Some(p))) ==
      Update(p.id, ProductRequest(p.name, p.description,
        p.specifications.(additional := if p.specifications.additional == Some("") then None
                                        else p.specifications.additional),
        p.category, DecimalString(p.price), p.images))
  {
  }

  /** removeImage: keep the images whose position is not k (prev.filter on the index). */
  function RemoveAt(s: seq<ImageUrl>, k: int): (r: seq<ImageUrl>)
    ensures |r| == if 0 <= k < |s| then |s| - 1 else |s|
  {
    if s == [] then []
    else (if k == 0 then [] else [s[0]]) + RemoveAt(s[1..], k - 1)
  }

  /** removeImage removes exactly the element at position k and keeps the others
      in order; an index out of range removes nothing. */
  lemma {:induction false} RemoveAtIsSplice(s: seq<ImageUrl>, k: int)
    ensures 0 <= k < |s| ==> RemoveAt(s, k) == s[..k] + s[k + 1..]
    ensures !(0 <= k < |s|) ==> RemoveAt(s, k) == s
  {
    if s != [] {
      RemoveAtIsSplice(s[1..], k - 1);
      if k == 0 {
        assert s[1..] == s[..0] + s[1..];
      } else if 0 < k < |s| {
        assert s[..k] == [s[0]] + s[1..][..k - 1];
        assert s[k + 1..] == s[1..][k..];
      } else {
        assert s == [s[0]] + s[1..];
      }
    }
  }

  /** Promise.all over the uploads: every URL, in the order of the files, when all
      of them succeeded; nothing when any failed. */
  function AllUploaded(outcomes: seq<Result<ImageUrl, BlobStorage.BlobError>>): (r: Option<seq<ImageUrl>>)
    ensures r.Some? <==> forall k :: 0 <= k < |outcomes| ==> outcomes[k].Ok?
    ensures r.Some? ==> |r.value| == |outcomes| && forall k :: 0 <= k < |outcomes| ==> r.value[k] == outcomes[k].value
  {
    if outcomes == [] then Some([])
    else
      var rest := AllUploaded(outcomes[..|outcomes| - 1]);
      var last := outcomes[|outcomes| - 1];
      if rest.Some? && last.Ok? then Some(rest.value + [last.value]) else None
  }

  /** The putFile calls the uploads make, one per file, without a progress callback. */
  function UploadCalls(files: seq<seq<byte>>): (r: seq<BlobStorage.PutFileCall>)
    ensures |r| == |files|
    ensures forall k :: 0 <= k < |files| ==> r[k] == BlobStorage.PutFileCall(files[k], None)
  {
    seq(|files|, k requires 0 <= k < |files| => BlobStorage.PutFileCall(files[k], None))
  }

  /** The state of one product form. */
  class ProductForm {
    /** The product being edited, if any. */
    const product: Option<Product>
    var fields: FormFields
    var images: seq<ImageUrl>
    var uploading: bool
    /** The addProduct and updateProduct calls made so far. */
    var submissions: seq<Submission>

    constructor (product: Option<Product>)
      ensures this.product == product
      ensures fields == InitialFields(product) && images == InitialImages(product)
      ensures !uploading && submissions == []
    {
      this.product := product;
      fields := InitialFields(product);
      images := InitialImages(product);
      uploading := false;
      submissions := [];
    }

    /** The onChange handlers of the inputs. */
    method SetFields(f: FormFields)
      modifies this`fields
      ensures fields == f
    {
      fields := f;
    }

    /** removeImage(k). */
    method RemoveImage(k: int)
      modifies this`images
      ensures 0 <= k < |old(images)| ==> images == old(images)[..k] + old(images)[k + 1..]
      ensures !(0 <= k < |old(images)|) ==> images == old(images)
    {
      RemoveAtIsSplice(images, k);
      images := RemoveAt(images, k);
    }

    /** handleImageUpload: upload every selected file, in the order selected, and
        append their URLs after the current images if all succeed; on any failure
        the images stay as they were. An empty selection does nothing. The uploads
        run one after another here. */
    method HandleImageUpload(files: seq<seq<byte>>, rt: BlobStorage.Runtime)
      returns (outcomes: seq<Result<ImageUrl, BlobStorage.BlobError>>)
      requires rt.Valid()
      modifies this`images, this`uploading, rt
      ensures rt.Valid()
      ensures files == [] ==>
        outcomes == [] && images == old(images) && uploading == old(uploading) && unchanged(rt)
      ensures files != [] ==> !uploading && |outcomes| == |files|
      ensures AllUploaded(outcomes).Some? ==> images == old(images) + AllUploaded(outcomes).value
      ensures AllUploaded(outcomes).None? ==> images == old(images)
      ensures rt.fetchCalls == old(rt.fetchCalls)
      ensures files != [] && old(rt.ClientAfterLoad()).Some? ==>
        && rt.storageClient == old(rt.ClientAfterLoad())
        && rt.configLoads == old(rt.LoadsAfterLoad())
        && rt.putFileCalls == old(rt.putFileCalls) + UploadCalls(files)
        && forall k :: 0 <= k < |files| ==>
             var config := rt.storageClient.value.config;
             outcomes[k] == BlobStorage.ImageURLOf(
               rt.putFile(|old(rt.putFileCalls)| + k, config, files[k]), config, rt.directURL)
    {
      if files == [] {
        return [];
      }
      uploading := true;
      outcomes := [];
      var i := 0;
      while i < |files|
        invariant 0 <= i <= |files| && |outcomes| == i
        invariant rt.Valid()
        invariant images == old(images)
        invariant rt.fetchCalls == old(rt.fetchCalls)
        invariant i == 0 ==> rt.storageClient == old(rt.storageClient) && rt.configLoads == old(rt.configLoads)
        invariant old(rt.ClientAfterLoad()).Some? && i > 0 ==>
          rt.storageClient == old(rt.ClientAfterLoad()) && rt.configLoads == old(rt.LoadsAfterLoad())
        invariant old(rt.ClientAfterLoad()).Some? ==>
          && rt.putFileCalls == old(rt.putFileCalls) + UploadCalls(files[..i])
          && forall k :: 0 <= k < i ==>
               var config := old(rt.ClientAfterLoad()).value.config;
               outcomes[k] == BlobStorage.ImageURLOf(
                 rt.putFile(|old(rt.putFileCalls)| + k, config, files[k]), config, rt.directURL)
      {
        var url := BlobStorage.UploadImage(files[i], None, rt);
        outcomes := outcomes + [url];
        assert UploadCalls(files[..i + 1]) == UploadCalls(files[..i]) + [BlobStorage.PutFileCall(files[i], None)];
        i := i + 1;
      }
      assert files[..i] == files;
      var uploaded := AllUploaded(outcomes);
      if uploaded.Some? {
        images := images + uploaded.value;
      }
      uploading := false;
    }

    /** handleSubmit: the call it makes, recorded, or nothing when rejected. */
    method HandleSubmit() returns (r: Submission)
      modifies this`submissions
      ensures r == Submit(product, fields, images)
      ensures r == Rejected ==> submissions == old(submissions)
      ensures r != Rejected ==> submissions == old(submissions) + [r]
    {
      r := Submit(product, fields, images);
      if r != Rejected {
        submissions := submissions + [r];
      }
    }
  }

  // ---- The panel's dialogs ----

  /** The dialog state of the panel. */
  class PanelDialogs {
    var isAddDialogOpen: bool
    var editingProduct: Option<Product>
    var deleteProductId: Option<ProductId>
    /** The deleteProduct calls made so far. */
    var deleteCalls: seq<ProductId>

    constructor ()
      ensures !isAddDialogOpen && editingProduct == None && deleteProductId == None && deleteCalls == []
    {
      isAddDialogOpen := false;
      editingProduct := None;
      deleteProductId := None;
      deleteCalls := [];
    }

    /** The edit dialog is open exactly while a product is being edited. */
    predicate EditDialogOpen()
      reads this
    {
      editingProduct.Some?
    }

    /** The delete dialog is open while the id is truthy: set and not empty. */
    predicate DeleteDialogOpen()
      reads this
    {
      deleteProductId.Some? && deleteProductId.value != ""
    }

    /** The add dialog's onOpenChange, and its form's onSuccess and onCancel (false). */
    method SetAddDialogOpen(open: bool)
      modifies this`isAddDialogOpen
      ensures isAddDialogOpen == open
    {
      isAddDialogOpen := open;
    }

    /** A product card's Edit button. */
    method Edit(p: Product)
      modifies this`editingProduct
      ensures editingProduct == Some(p) && EditDialogOpen()
    {
      editingProduct := Some(p);
    }

    /** The edit dialog closing, or its form's onSuccess or onCancel. */
    method CloseEdit()
      modifies this`editingProduct
      ensures editingProduct == None && !EditDialogOpen()
    {
      editingProduct := None;
    }

    /** A product card's delete button. */
    method AskDelete(id: ProductId)
      modifies this`deleteProductId
      ensures deleteProductId == Some(id)
      ensures DeleteDialogOpen() <==> id != ""
    {
      deleteProductId := Some(id);
    }

    /** The delete dialog closing. */
    method CloseDelete()
      modifies this`deleteProductId
      ensures deleteProductId == None && !DeleteDialogOpen()
    {
      deleteProductId := None;
    }

    /** The delete dialog's action button: handleDelete makes one deleteProduct
        call for a truthy id and nothing otherwise; the alert dialog's action button
        then closes the dialog itself, so the id is cleared whether or not the
        deletion succeeds. */
    method ConfirmDelete()
      modifies this`deleteProductId, this`deleteCalls
      ensures !old(DeleteDialogOpen()) ==> deleteCalls == old(deleteCalls) && deleteProductId == old(deleteProductId)
      ensures old(DeleteDialogOpen()) ==> deleteCalls == old(deleteCalls) + [old(deleteProductId).value]
      ensures old(DeleteDialogOpen()) ==> deleteProductId == None && !DeleteDialogOpen()
    {
      if deleteProductId.None? || deleteProductId.value == "" {
        return;
      }
      deleteCalls := deleteCalls + [deleteProductId.value];
      deleteProductId := None;
    }
  }
}
