/** The employee management page: the id/name/manager form, the UUID
    generator, edit/reset, and the add-or-update dispatch on submit. */
module EmployeesPage {
  import opened Wrappers

  /** A form value: text inputs hold strings, the checkbox holds a boolean. */
  datatype Field = Text(text: string) | Flag(flag: bool)

  /** An employee as listed by the page. */
  datatype Employee = Employee(id: string, name: string, isManager: bool)

  /** Page state: the form keyed by input name, editing mode, the employee
      being edited, the listed employees and the error banner. */
  datatype Page = Page(form: map<string, Field>, isEditing: bool, current: Option<Employee>,
                       employees: seq<Employee>, error: Option<string>)

  /** The empty form. */
  const EmptyForm: map<string, Field> := map["id" := Text(""), "name" := Text(""), "is_manager" := Flag(false)]

  /** The version-4 UUID template: `x` is any hex digit, `y` one of 8, 9, a, b. */
  const UuidTemplate: string := "xxxxxxxx-xxxx-4xxx-yxxx-xxxxxxxxxxxx"

  const HexDigits: string := "0123456789abcdef"

  predicate IsLowerHex(c: char) {
    c in HexDigits
  }

  /** Number of `x`/`y` placeholders in a template. */
  function Placeholders(template: string): nat {
    if |template| == 0 then 0
    else (if template[0] == 'x' || template[0] == 'y' then 1 else 0) + Placeholders(template[1..])
  }

  lemma {:induction false} PlaceholdersAppend(a: string, b: string)
    ensures Placeholders(a + b) == Placeholders(a) + Placeholders(b)
  {
    if |a| == 0 {
      assert a + b == b;
    } else {
      assert (a + b)[1..] == a[1..] + b;
      PlaceholdersAppend(a[1..], b);
    }
  }

  lemma {:induction false} PlaceholdersRun(s: string)
    requires forall i :: 0 <= i < |s| ==> s[i] == 'x'
    ensures Placeholders(s) == |s|
  {
    if |s| > 0 {
      PlaceholdersRun(s[1..]);
    }
  }

  lemma PlaceholdersJoin(a: string, sep: string, b: string, na: nat, ns: nat, nb: nat)
    requires Placeholders(a) == na && Placeholders(sep) == ns && Placeholders(b) == nb
    ensures Placeholders(a + sep + b) == na + ns + nb
  {
    PlaceholdersAppend(a, sep);
    PlaceholdersAppend(a + sep, b);
  }

  /** The template's characters: '-' at 8, 13, 18 and 23, '4' at 14, 'y' at
      19 and 'x' everywhere else. */
  lemma TemplateShape()
    ensures |UuidTemplate| == 36
    ensures UuidTemplate[8] == '-' && UuidTemplate[13] == '-' && UuidTemplate[18] == '-' && UuidTemplate[23] == '-'
    ensures UuidTemplate[14] == '4' && UuidTemplate[19] == 'y'
    ensures forall i :: 0 <= i < 36 && i !in {8, 13, 14, 18, 19, 23} ==> UuidTemplate[i] == 'x'
  {
  }

  lemma TemplatePieces()
    ensures UuidTemplate == "xxxxxxxx" + "-" + "xxxx" + "-4" + "xxx" + "-y" + "xxx" + "-" + "xxxxxxxxxxxx"
  {
  }

  lemma PiecesCount()
    ensures Placeholders("xxxxxxxx" + "-" + "xxxx" + "-4" + "xxx" + "-y" + "xxx" + "-" + "xxxxxxxxxxxx") == 31
  {
    var a, b, c, d, e := "xxxxxxxx", "xxxx", "xxx", "xxx", "xxxxxxxxxxxx";
    PlaceholdersRun(a);
    PlaceholdersRun(b);
    PlaceholdersRun(c);
    PlaceholdersRun(d);
    PlaceholdersRun(e);
    assert Placeholders("-") == 0 && Placeholders("-4") == 0 && Placeholders("-y") == 1;
    var s2 := a + "-" + b;
    PlaceholdersJoin(a, "-", b, 8, 0, 4);
    var s4 := s2 + "-4" + c;
    PlaceholdersJoin(s2, "-4", c, 12, 0, 3);
    var s6 := s4 + "-y" + d;
    PlaceholdersJoin(s4, "-y", d, 15, 1, 3);
    PlaceholdersJoin(s6, "-", e, 19, 0, 12);
  }

  /** The template has 31 placeholders, so 31 random draws fill it. */
  lemma TemplateCount()
    ensures Placeholders(UuidTemplate) == 31
  {
    TemplatePieces();
    PiecesCount();
  }

  /** A nibble is a random value in 0..15 (`Math.random() * 16 | 0`). */
  predicate Nibbles(ns: seq<int>) {
    forall i :: 0 <= i < |ns| ==> 0 <= ns[i] < 16
  }

  /** Replace each placeholder, left to right, using the next nibble: `x`
      takes it as is, `y` takes `nibble & 0x3 | 0x8`. */
  function Fill(template: string, ns: seq<int>): string
    requires |ns| == Placeholders(template) && Nibbles(ns)
  {
    if |template| == 0 then ""
    else if template[0] == 'x' then [HexDigits[ns[0]]] + Fill(template[1..], ns[1..])
    else if template[0] == 'y' then [HexDigits[ns[0] % 4 + 8]] + Fill(template[1..], ns[1..])
    else [template[0]] + Fill(template[1..], ns)
  }

  /** Character `i` of `filled` is a legal fill of character `i` of `template`. */
  predicate FillsAt(template: string, filled: string, i: int)
    requires 0 <= i < |template| && |filled| == |template|
  {
    && (template[i] == 'x' ==> IsLowerHex(filled[i]))
    && (template[i] == 'y' ==> filled[i] in "89ab")
    && (template[i] != 'x' && template[i] != 'y' ==> filled[i] == template[i])
  }

  /** Filling keeps the template's shape: same length, every `x` a lower-case
      hex digit, every `y` one of 8/9/a/b, every other character unchanged. */
  lemma {:induction false} FillShape(template: string, ns: seq<int>)
    requires |ns| == Placeholders(template) && Nibbles(ns)
    ensures |Fill(template, ns)| == |template|
    ensures forall i :: 0 <= i < |template| ==> FillsAt(template, Fill(template, ns), i)
  {
    if |template| > 0 {
      var rest := if template[0] == 'x' || template[0] == 'y' then ns[1..] else ns;
      FillShape(template[1..], rest);
      var r := Fill(template, ns);
      assert r[1..] == Fill(template[1..], rest);
      forall i | 1 <= i < |template|
        ensures FillsAt(template, r, i)
      {
        assert r[i] == Fill(template[1..], rest)[i - 1] && template[i] == template[1..][i - 1];
        assert FillsAt(template[1..], Fill(template[1..], rest), i - 1);
      }
      if template[0] == 'y' {
        assert HexDigits[ns[0] % 4 + 8] in "89ab";
      }
      assert FillsAt(template, r, 0);
    }
  }

  /** A fresh version-4 UUID from 31 random nibbles. */
  function GenerateUuid(ns: seq<int>): (u: string)
    requires |ns| == 31 && Nibbles(ns)
    ensures |u| == 36
    ensures u[8] == '-' && u[13] == '-' && u[18] == '-' && u[23] == '-'
    ensures u[14] == '4'
    ensures u[19] in "89ab"
    ensures forall i :: 0 <= i < 36 && i !in {8, 13, 14, 18, 19, 23} ==> IsLowerHex(u[i])
  {
    TemplateCount();
    TemplateShape();
    UuidShape(UuidTemplate, ns);
    Fill(UuidTemplate, ns)
  }

  /** The shape of a filled template with the UUID layout. */
  lemma UuidShape(t: string, ns: seq<int>)
    requires |ns| == Placeholders(t) && Nibbles(ns)
    requires |t| == 36
    requires t[8] == '-' && t[13] == '-' && t[18] == '-' && t[23] == '-' && t[14] == '4' && t[19] == 'y'
    requires forall i :: 0 <= i < 36 && i !in {8, 13, 14, 18, 19, 23} ==> t[i] == 'x'
    ensures var u := Fill(t, ns);
      && |u| == 36
      && u[8] == '-' && u[13] == '-' && u[18] == '-' && u[23] == '-'
      && u[14] == '4' && u[19] in "89ab"
      && forall i :: 0 <= i < 36 && i !in {8, 13, 14, 18, 19, 23} ==> IsLowerHex(u[i])
  {
    var u := Fill(t, ns);
    FillShape(t, ns);
    assert FillsAt(t, u, 8) && FillsAt(t, u, 13);
    assert FillsAt(t, u, 18) && FillsAt(t, u, 23);
    assert FillsAt(t, u, 14) && FillsAt(t, u, 19);
    forall i | 0 <= i < 36 && i !in {8, 13, 14, 18, 19, 23} ensures IsLowerHex(u[i]) {
      assert FillsAt(t, u, i);
    }
  }

  /** "Generate": only the form's id changes. */
  function GenerateId(p: Page, ns: seq<int>): (r: Page)
    requires |ns| == 31 && Nibbles(ns)
    ensures r.form.Keys == p.form.Keys + {"id"}
    ensures r.form["id"] == Text(GenerateUuid(ns))
    ensures forall k :: k in p.form && k != "id" ==> r.form[k] == p.form[k]
    ensures r.isEditing == p.isEditing && r.current == p.current
    ensures r.employees == p.employees && r.error == p.error
  {
    p.(form := p.form["id" := Text(GenerateUuid(ns))])
  }

  /** "Edit": copy the employee into the form and enter editing mode. */
  function EditEmployee(p: Page, e: Employee): (r: Page)
    ensures r.form == map["id" := Text(e.id), "name" := Text(e.name), "is_manager" := Flag(e.isManager)]
    ensures r.isEditing && r.current == Some(e)
    ensures r.employees == p.employees && r.error == p.error
  {
    p.(form := map["id" := Text(e.id), "name" := Text(e.name), "is_manager" := Flag(e.isManager)],
       isEditing := true, current := Some(e))
  }

  /** "Cancel"/after a save: empty form, not editing, no current employee. */
  function ResetForm(p: Page): (r: Page)
    ensures r.form.Keys == {"id", "name", "is_manager"}
    ensures r.form["id"] == Text("") && r.form["name"] == Text("") && r.form["is_manager"] == Flag(false)
    ensures !r.isEditing && r.current.None?
    ensures r.employees == p.employees && r.error == p.error
  {
    p.(form := EmptyForm, isEditing := false, current := None)
  }

  /** An input's change event: the checkbox stores its checked state, any
      other input its text; only the input's own key changes. */
  function HandleInputChange(p: Page, inputName: string, inputType: string, value: string, checked: bool): (r: Page)
    ensures r.form.Keys == p.form.Keys + {inputName}
    ensures inputType == "checkbox" ==> r.form[inputName] == Flag(checked)
    ensures inputType != "checkbox" ==> r.form[inputName] == Text(value)
    ensures forall k :: k in p.form && k != inputName ==> r.form[k] == p.form[k]
    ensures r.isEditing == p.isEditing && r.current == p.current
    ensures r.employees == p.employees && r.error == p.error
  {
    p.(form := p.form[inputName := if inputType == "checkbox" then Flag(checked) else Text(value)])
  }

  /** The request the page sends. */
  datatype EmployeeRequest =
    | AddEmployee(body: map<string, Field>)
    | UpdateEmployee(id: string, body: map<string, Field>)

  datatype SubmitStep = SubmitStep(page: Page, request: Option<EmployeeRequest>)

  /** The update body: the form's name and manager flag (a missing key is
      dropped by JSON serialisation). */
  function UpdateBody(form: map<string, Field>): (b: map<string, Field>)
    ensures b.Keys == form.Keys * {"name", "is_manager"}
    ensures forall k :: k in b ==> b[k] == form[k]
  {
    map k | k in form && k in {"name", "is_manager"} :: form[k]
  }

  /** How the add or update request ended: a 2xx reply, a non-2xx reply
      with its body and its status code as decimal text, or a rejected fetch
      with the error's message. */
  datatype Reply = Accepted | Rejected(body: string, status: string) | NetworkError(message: string)

  /** How the list reload that follows a save ended. */
  datatype Refresh = Loaded(list: seq<Employee>) | LoadFailed(message: string)

  /** The message of the error a failed request throws: the reply's text,
      or the status line when the text is empty. */
  function FailureMessage(reply: Reply): (m: string)
    requires !reply.Accepted?
    ensures reply.Rejected? && reply.body != "" ==> m == reply.body
    ensures reply.Rejected? && reply.body == "" ==> m == "HTTP error! Status: " + reply.status
    ensures reply.NetworkError? ==> m == reply.message
  {
    match reply
    case Rejected(body, status) => if body != "" then body else "HTTP error! Status: " + status
    case NetworkError(message) => message
  }

  /** The banner for a failed save. */
  function SaveError(editing: bool, reply: Reply): (m: string)
    requires !reply.Accepted?
    ensures editing ==> m == "Failed to update employee. Error: " + FailureMessage(reply)
    ensures !editing ==> m == "Failed to add employee. Error: " + FailureMessage(reply)
  {
    (if editing then "Failed to update employee. Error: " else "Failed to add employee. Error: ") + FailureMessage(reply)
  }

  /** The list reload: a loaded list replaces the listed employees and
      clears the banner; a failure sets the banner and keeps the list. */
  function Reload(p: Page, refresh: Refresh): (r: Page)
    ensures r.form == p.form && r.isEditing == p.isEditing && r.current == p.current
    ensures refresh.Loaded? ==> r.employees == refresh.list && r.error.None?
    ensures refresh.LoadFailed? ==>
      r.employees == p.employees && r.error == Some("Failed to load employees. Error: " + refresh.message)
  {
    match refresh
    case Loaded(list) => p.(employees := list, error := None)
    case LoadFailed(message) => p.(error := Some("Failed to load employees. Error: " + message))
  }

  /** Submit: update in editing mode (nothing without a current employee),
      add otherwise. A save that succeeds resets the form and then reloads
      the list, whose outcome settles the banner; one that fails keeps the
      form and shows why. */
  function HandleSubmit(p: Page, reply: Reply, refresh: Refresh): (r: SubmitStep)
    ensures p.isEditing && p.current.None? ==> r == SubmitStep(p, None)
    ensures p.isEditing && p.current.Some? ==> r.request == Some(UpdateEmployee(p.current.value.id, UpdateBody(p.form)))
    ensures !p.isEditing ==> r.request == Some(AddEmployee(p.form))
    ensures r.request.Some? && reply.Accepted? ==>
      r.page.form == EmptyForm && !r.page.isEditing && r.page.current.None?
      && (refresh.Loaded? ==> r.page.employees == refresh.list && r.page.error.None?)
      && (refresh.LoadFailed? ==> r.page.employees == p.employees && r.page.error.Some?)
    ensures r.request.Some? && !reply.Accepted? ==>
      r.page == p.(error := Some(SaveError(p.isEditing, reply)))
  {
    if p.isEditing && p.current.None? then SubmitStep(p, None)
    else
      var req := if p.isEditing then UpdateEmployee(p.current.value.id, UpdateBody(p.form)) else AddEmployee(p.form);
      if reply.Accepted? then SubmitStep(Reload(ResetForm(p), refresh), Some(req))
      else SubmitStep(p.(error := Some(SaveError(p.isEditing, reply))), Some(req))
  }

  /** A failed save can be retried as is: the form survives the failure, so
      retrying ends exactly as if the first attempt had succeeded. */
  lemma RetryAfterFailure(p: Page, failure: Reply, refresh: Refresh)
    requires !failure.Accepted?
    ensures HandleSubmit(HandleSubmit(p, failure, refresh).page, Accepted, refresh) == HandleSubmit(p, Accepted, refresh)
  {
  }

  /** Editing an employee and saving straight away sends that employee's own
      name and flag to the update endpoint under its id. */
  lemma EditThenSubmit(p: Page, e: Employee, reply: Reply, refresh: Refresh)
    ensures HandleSubmit(EditEmployee(p, e), reply, refresh).request
      == Some(UpdateEmployee(e.id, map["name" := Text(e.name), "is_manager" := Flag(e.isManager)]))
  {
    var f := EditEmployee(p, e).form;
    assert UpdateBody(f) == map["name" := Text(e.name), "is_manager" := Flag(e.isManager)];
  }

  /** Two changes of the same input leave only the second. */
  lemma InputChangeLastWins(p: Page, inputName: string, inputType: string, v1: string, c1: bool, v2: string, c2: bool)
    ensures HandleInputChange(HandleInputChange(p, inputName, inputType, v1, c1), inputName, inputType, v2, c2)
      == HandleInputChange(p, inputName, inputType, v2, c2)
  {
  }
}
