/** The "Add Menu Item" form: ingredient selection with quantities, the
    submit-time validation, and the reset after a successful post. */
module MenuItem {
  import opened Wrappers
  import opened Seqs

  /** One selected ingredient and the quantity entered for it. */
  datatype Selected = Selected(id: string, quantity: int)

  const RequiredFieldsError: string := "Please fill in all required fields and select at least one ingredient"
  const InvalidPriceError: string := "Please enter a valid price (greater than 0)"
  const PostFailedError: string := "Failed to add menu item. Please try again."

  /** The form's state. `price` is the raw text of the price input. */
  datatype Form = Form(
    name: string,
    description: string,
    price: string,
    hasBoba: bool,
    customizations: string,
    alerts: string,
    isSeasonal: bool,
    selected: seq<Selected>,
    imageFile: Option<string>,
    imagePreview: Option<string>,
    error: string)

  /** Keeps the entries of every ingredient other than `id`. */
  function OtherIds(id: string): Selected -> bool {
    (e: Selected) => e.id != id
  }

  /** Ticking an ingredient's checkbox appends it with quantity 1; unticking
      removes every entry with that id, keeping the other entries in order
      and each as often as before. */
  function IngredientChange(selected: seq<Selected>, id: string, checked: bool): (r: seq<Selected>)
    ensures checked ==> |r| == |selected| + 1 && r[..|selected|] == selected && r[|selected|] == Selected(id, 1)
    ensures !checked ==> forall i :: 0 <= i < |r| ==> r[i].id != id && r[i] in selected
    ensures !checked ==> forall e: Selected :: e.id != id ==> Count(r, e) == Count(selected, e)
    ensures !checked ==> r == Filter(selected, OtherIds(id))
    ensures !checked ==>
      |r| == |Kept(selected, OtherIds(id), 0)|
      && forall k :: 0 <= k < |r| ==> r[k] == selected[Kept(selected, OtherIds(id), 0)[k]]
  {
    if checked then selected + [Selected(id, 1)]
    else
      UncheckFacts(selected, id);
      Filter(selected, OtherIds(id))
  }

  /** What filtering out one id keeps, for `IngredientChange`. */
  lemma UncheckFacts(selected: seq<Selected>, id: string)
    ensures var r := Filter(selected, OtherIds(id));
      (forall i :: 0 <= i < |r| ==> r[i].id != id && r[i] in selected)
      && (forall e: Selected :: e.id != id ==> Count(r, e) == Count(selected, e))
      && |r| == |Kept(selected, OtherIds(id), 0)|
      && (forall k :: 0 <= k < |r| ==> r[k] == selected[Kept(selected, OtherIds(id), 0)[k]])
  {
    FilterCountAll(selected, OtherIds(id));
    FilterAt(selected, OtherIds(id));
  }

  /** Ticking an ingredient that is not selected and then unticking it gives
      back the original selection. */
  lemma CheckThenUncheckRestores(selected: seq<Selected>, id: string)
    requires forall i :: 0 <= i < |selected| ==> selected[i].id != id
    ensures IngredientChange(IngredientChange(selected, id, true), id, false) == selected
  {
    var keep := OtherIds(id);
    assert forall i :: 0 <= i < |selected| ==> keep(selected[i]);
    FilterAppend(selected, [Selected(id, 1)], keep);
    FilterKeepsAll(selected, keep);
    assert Filter([Selected(id, 1)], keep) == [];
    assert selected + [] == selected;
  }

  /** A quantity change rewrites only the entries with the matching id. */
  function QuantityChange(selected: seq<Selected>, id: string, quantity: int): (r: seq<Selected>)
    ensures |r| == |selected|
    ensures forall i :: 0 <= i < |r| ==> r[i].id == selected[i].id
    ensures forall i :: 0 <= i < |r| && selected[i].id != id ==> r[i] == selected[i]
    ensures forall i :: 0 <= i < |r| && selected[i].id == id ==> r[i].quantity == quantity
  {
    if |selected| == 0 then []
    else
      var head := if selected[0].id == id then selected[0].(quantity := quantity) else selected[0];
      [head] + QuantityChange(selected[1..], id, quantity)
  }

  /** Changing the quantity of an id that is not selected changes nothing,
      and setting the same quantity twice is the same as setting it once. */
  lemma QuantityChangeFacts(selected: seq<Selected>, id: string, quantity: int)
    ensures (forall i :: 0 <= i < |selected| ==> selected[i].id != id) ==> QuantityChange(selected, id, quantity) == selected
    ensures QuantityChange(QuantityChange(selected, id, quantity), id, quantity) == QuantityChange(selected, id, quantity)
  {
  }

  /** The value the quantity input passes on: `parseInt(text) || 1`, where
      `parsed` is the parse result and `None` stands for NaN. */
  function QuantityFromInput(parsed: Option<int>): (q: int)
    ensures q != 0
    ensures parsed.Some? && parsed.value != 0 ==> q == parsed.value
    ensures parsed.None? || parsed.value == 0 ==> q == 1
  {
    match parsed
    case Some(n) => if n != 0 then n else 1
    case None => 1
  }

  /** The multipart body posted to the add-menu-item endpoint. */
  datatype MenuItemRequest = MenuItemRequest(
    name: string,
    description: string,
    price: real,
    customizations: string,
    alerts: string,
    hasBoba: bool,
    isSeasonal: bool,
    ingredients: seq<Selected>,
    image: Option<string>)

  datatype SubmitStep = SubmitStep(form: Form, request: Option<MenuItemRequest>)

  /** The required-fields check: every text field non-empty and at least one ingredient. */
  predicate RequiredFilled(f: Form) {
    f.name != "" && f.description != "" && f.price != "" && |f.selected| > 0
  }

  /** The form after a successful post: every input cleared except alerts. */
  function Cleared(f: Form): (r: Form)
    ensures r.name == "" && r.description == "" && r.price == "" && r.customizations == ""
    ensures !r.hasBoba && !r.isSeasonal && r.selected == [] && r.imageFile.None? && r.imagePreview.None?
    ensures r.alerts == f.alerts && r.error == ""
  {
    Form("", "", "", false, "", f.alerts, false, [], None, None, "")
  }

  /** Press "Add Menu Item". `parsedPrice` is `parseFloat` of the price text
      (`None` for NaN); `posted` says whether the request succeeded. */
  function Submit(f: Form, parsedPrice: Option<real>, posted: bool): (r: SubmitStep)
    ensures !RequiredFilled(f) ==> r == SubmitStep(f.(error := RequiredFieldsError), None)
    ensures RequiredFilled(f) && (parsedPrice.None? || parsedPrice.value <= 0.0) ==>
      r == SubmitStep(f.(error := InvalidPriceError), None)
    ensures r.request.Some? <==> RequiredFilled(f) && parsedPrice.Some? && parsedPrice.value > 0.0
    ensures r.request.Some? ==>
      && r.request.value.price == parsedPrice.value
      && r.request.value.name == f.name && r.request.value.description == f.description
      && r.request.value.ingredients == f.selected && r.request.value.image == f.imageFile
    ensures r.request.Some? && posted ==> r.form == Cleared(f)
    ensures r.request.Some? && !posted ==> r.form == f.(error := PostFailedError)
  {
    if !RequiredFilled(f) then SubmitStep(f.(error := RequiredFieldsError), None)
    else if parsedPrice.None? || parsedPrice.value <= 0.0 then SubmitStep(f.(error := InvalidPriceError), None)
    else
      var req := MenuItemRequest(f.name, f.description, parsedPrice.value, f.customizations, f.alerts,
                                 f.hasBoba, f.isSeasonal, f.selected, f.imageFile);
      if posted then SubmitStep(Cleared(f), Some(req))
      else SubmitStep(f.(error := PostFailedError), Some(req))
  }

  /** An empty field is reported as missing even when the price is also
      invalid: the required-fields check comes first. */
  lemma RequiredCheckFirst(f: Form, parsedPrice: Option<real>, posted: bool)
    requires f.name == "" && (parsedPrice.None? || parsedPrice.value <= 0.0)
    ensures Submit(f, parsedPrice, posted).form.error == RequiredFieldsError
    ensures Submit(f, parsedPrice, posted).request.None?
  {
  }
}
