/** The employee endpoints: add, update and delete over the employee table,
    with the request validation and status codes they answer. */
module EmployeeRoute {
  import opened Wrappers
  import opened Uuids
  import Strings

  /** A JSON value of a request body; arrays and objects are only counted. */
  datatype Json = JStr(s: string) | JBool(b: bool) | JNum(n: real) | JNull | JCollection(size: nat)

  /** Python truthiness of a decoded JSON value. */
  predicate Truthy(v: Json) {
    match v
    case JStr(s) => s != ""
    case JBool(b) => b
    case JNum(n) => n != 0.0
    case JNull => false
    case JCollection(size) => size > 0
  }

  /** A decoded object body; `None` stands for a missing or non-object body. */
  type Body = Option<map<string, Json>>

  /** A row of the employee table, keyed by its canonical id. */
  datatype Employee = Employee(id: string, name: string, isManager: bool)

  /** The table: canonical id (32 lower-case hex digits) to row. */
  type Store = map<string, Employee>

  /** The outcome of an endpoint: a status code and the table afterwards. */
  datatype Reply = Reply(status: int, store: Store)

  /** The `is_manager` value the boolean column stores, or `None` when the
      column refuses it. The column accepts exactly the values equal to
      `True`, `False` or `None` in Python, so the numbers 1 and 0 pass as
      true and false; `null` is refused by the non-null constraint. */
  function ManagerFlag(v: Json): (r: Option<bool>)
    ensures r.Some? <==> v.JBool? || v == JNum(1.0) || v == JNum(0.0)
    ensures v.JBool? ==> r == Some(v.b)
    ensures v.JNum? && r.Some? ==> r.value == (v.n == 1.0)
  {
    match v
    case JBool(b) => Some(b)
    case JNum(n) => if n == 1.0 then Some(true) else if n == 0.0 then Some(false) else None
    case _ => None
  }

  /** The flag `add_employee` stores: the body's `is_manager`, defaulting to
      false, or `None` when the column would refuse it. */
  function FlagOf(data: map<string, Json>): Option<bool> {
    if "is_manager" in data then ManagerFlag(data["is_manager"]) else Some(false)
  }

  /** The body's custom id; a missing one reads as `null`, as `data.get('id')` does. */
  function CustomId(data: map<string, Json>): Json {
    if "id" in data then data["id"] else JNull
  }

  /** A name `add_employee` accepts: present, a string, and not blank. */
  predicate NamedBody(data: map<string, Json>) {
    "name" in data && data["name"].JStr? && Strings.Strip(data["name"].s) != ""
  }

  /** `add_employee`. `freshId` is the id the table would generate (already
      canonical). A missing body, a blank or missing name, or a malformed or
      taken custom id answer 400 before anything is written; a name or truthy
      id that is not a string answers 500; a flag the boolean column refuses
      or a clash of the generated id fails at the commit with 500; success
      inserts one row and answers 201. */
  function AddEmployee(store: Store, body: Body, freshId: string): (r: Reply)
    requires IsCanonical(freshId)
    ensures r.status in {201, 400, 500}
    ensures r.status != 201 ==> r.store == store
    ensures (body.None? || body.value == map[]) ==> r.status == 400
    ensures body.Some? && body.value != map[] && "name" !in body.value ==> r.status == 400
    ensures body.Some? && "name" in body.value && body.value["name"].JStr? && Strings.Strip(body.value["name"].s) == ""
            ==> r.status == 400
    ensures body.Some? && NamedBody(body.value) && "id" in body.value && body.value["id"].JStr? && body.value["id"].s != ""
            && (ParseUuid(body.value["id"].s).None? || ParseUuid(body.value["id"].s).value in store)
            ==> r.status == 400
    ensures r.status == 201 <==>
      body.Some? && NamedBody(body.value) && FlagOf(body.value).Some? &&
      var custom := CustomId(body.value);
      if Truthy(custom) then custom.JStr? && ParseUuid(custom.s).Some? && ParseUuid(custom.s).value !in store
      else freshId !in store
    ensures r.status == 201 ==>
      var custom := CustomId(body.value);
      var id := if Truthy(custom) then ParseUuid(custom.s).value else freshId;
      id !in store && r.store == store[id := Employee(id, body.value["name"].s, FlagOf(body.value).value)]
  {
    match body
    case None => Reply(400, store)
    case Some(data) =>
      if data == map[] then Reply(400, store)
      else if "name" !in data then Reply(400, store)
      else if !data["name"].JStr? then Reply(500, store)
      else if Strings.Strip(data["name"].s) == "" then Reply(400, store)
      else
        var name := data["name"].s;
        var flag := FlagOf(data);
        var custom := CustomId(data);
        if Truthy(custom) then
          if !custom.JStr? then Reply(500, store)
          else match ParseUuid(custom.s)
            case None => Reply(400, store)
            case Some(id) =>
              if id in store then Reply(400, store)
              else if flag.None? then Reply(500, store)
              else Reply(201, store[id := Employee(id, name, flag.value)])
        else if flag.None? || freshId in store then Reply(500, store)
        else Reply(201, store[freshId := Employee(freshId, name, flag.value)])
  }

  /** A custom id that is not a UUID, or that is taken, is refused with 400,
      whatever else the body holds. */
  lemma CustomIdChecked(store: Store, body: map<string, Json>, freshId: string)
    requires IsCanonical(freshId)
    requires NamedBody(body)
    requires "id" in body && body["id"].JStr? && body["id"].s != ""
    requires ParseUuid(body["id"].s).None? || ParseUuid(body["id"].s).value in store
    ensures AddEmployee(store, Some(body), freshId) == Reply(400, store)
  {
  }

  /** A non-boolean flag with a malformed custom id is still a 400: the id
      is checked before anything reaches the database. */
  lemma BadFlagWithBadIdIs400(store: Store, freshId: string, badId: string)
    requires IsCanonical(freshId) && badId != "" && ParseUuid(badId).None?
    ensures AddEmployee(store, Some(map["name" := JStr("A"), "is_manager" := JStr("yes"), "id" := JStr(badId)]), freshId).status == 400
  {
    var body := map["name" := JStr("A"), "is_manager" := JStr("yes"), "id" := JStr(badId)];
    assert Strings.Strip("A") != "" by {
      assert !Strings.IsSpace("A"[0]);
    }
    CustomIdChecked(store, body, freshId);
  }

  /** A manager with a fresh custom id is stored under that id's canonical
      form, whichever accepted spelling the body uses. */
  lemma CustomManagerAdded(store: Store, name: string, id: string, freshId: string)
    requires IsCanonical(freshId) && Strings.Strip(name) != ""
    requires id != "" && ParseUuid(id).Some? && ParseUuid(id).value !in store
    ensures var key := ParseUuid(id).value;
      AddEmployee(store, Some(map["name" := JStr(name), "is_manager" := JBool(true), "id" := JStr(id)]), freshId)
      == Reply(201, store[key := Employee(key, name, true)])
  {
  }

  /** A numeric 1 stores a manager, as `true` does. */
  lemma NumericFlagStored(store: Store, name: string, freshId: string)
    requires IsCanonical(freshId) && freshId !in store && Strings.Strip(name) != ""
    ensures AddEmployee(store, Some(map["name" := JStr(name), "is_manager" := JNum(1.0)]), freshId)
            == AddEmployee(store, Some(map["name" := JStr(name), "is_manager" := JBool(true)]), freshId)
  {
  }

  /** Without a custom id the generated id is used, with `is_manager` defaulting to false. */
  lemma GeneratedIdUsed(store: Store, name: string, freshId: string)
    requires IsCanonical(freshId) && freshId !in store && Strings.Strip(name) != ""
    ensures AddEmployee(store, Some(map["name" := JStr(name)]), freshId)
            == Reply(201, store[freshId := Employee(freshId, name, false)])
  {
  }

  /** An update body `update_employee` can commit: a present name is a
      string and a present flag one the boolean column accepts. */
  predicate Storable(data: map<string, Json>) {
    ("name" in data ==> data["name"].JStr?) && ("is_manager" in data ==> ManagerFlag(data["is_manager"]).Some?)
  }

  /** `update_employee`: a missing body answers 400, a malformed id 500, an
      unknown id 404; otherwise each key present replaces that field, each
      absent key keeps it, and a value the column refuses answers 500. The
      name is not validated here. */
  function UpdateEmployee(store: Store, id: string, body: Body): (r: Reply)
    ensures r.status in {200, 400, 404, 500}
    ensures r.status != 200 ==> r.store == store
    ensures (body.None? || body.value == map[]) ==> r.status == 400
    ensures body.Some? && body.value != map[] && ParseUuid(id).Some? && ParseUuid(id).value !in store ==> r.status == 404
    ensures r.status == 200 <==>
      body.Some? && body.value != map[] && ParseUuid(id).Some? && ParseUuid(id).value in store && Storable(body.value)
    ensures r.status == 200 ==>
      var key := ParseUuid(id).value;
      r.store.Keys == store.Keys
      && (forall k :: k in store && k != key ==> r.store[k] == store[k])
      && r.store[key].id == store[key].id
      && ("name" in body.value ==> body.value["name"] == JStr(r.store[key].name))
      && ("name" !in body.value ==> r.store[key].name == store[key].name)
      && ("is_manager" in body.value ==> ManagerFlag(body.value["is_manager"]) == Some(r.store[key].isManager))
      && ("is_manager" !in body.value ==> r.store[key].isManager == store[key].isManager)
  {
    match body
    case None => Reply(400, store)
    case Some(data) =>
      if data == map[] then Reply(400, store)
      else match ParseUuid(id)
        case None => Reply(500, store)
        case Some(key) =>
          if key !in store then Reply(404, store)
          else
            var row := store[key];
            var name := if "name" in data then data["name"] else JStr(row.name);
            var flag := if "is_manager" in data then ManagerFlag(data["is_manager"]) else Some(row.isManager);
            if !name.JStr? || flag.None? then Reply(500, store)
            else Reply(200, store[key := row.(name := name.s, isManager := flag.value)])
  }

  /** An update touching only one of the two fields keeps the other: with a
      storable body, each absent key keeps the row's old value and each
      present key takes the body's value. */
  lemma UpdateKeepsAbsentKeys(store: Store, id: string, body: map<string, Json>)
    requires body != map[] && Storable(body)
    requires IsCanonical(id) && id in store
    ensures var r := UpdateEmployee(store, id, Some(body));
      r.status == 200
      && r.store[id].name == (if "name" in body then body["name"].s else store[id].name)
      && r.store[id].isManager == (if "is_manager" in body then ManagerFlag(body["is_manager"]).value else store[id].isManager)
  {
    ParseCanonical(id);
  }

  /** Applying the same update twice leaves the table as applying it once. */
  lemma UpdateTwiceSame(store: Store, id: string, body: map<string, Json>)
    requires body != map[] && Storable(body)
    requires IsCanonical(id) && id in store
    ensures var once := UpdateEmployee(store, id, Some(body));
      UpdateEmployee(once.store, id, Some(body)) == once
  {
    var once := UpdateEmployee(store, id, Some(body));
    UpdatedRow(store, id, body);
    UpdatedRow(once.store, id, body);
    var row := once.store[id];
    assert row.(name := row.name, isManager := row.isManager) == row;
    assert once.store[id := row] == once.store;
  }

  /** A storable update of a known canonical id answers 200 with exactly
      the row's fields replaced by the body's. */
  lemma UpdatedRow(store: Store, id: string, body: map<string, Json>)
    requires body != map[] && Storable(body)
    requires IsCanonical(id) && id in store
    ensures UpdateEmployee(store, id, Some(body)) ==
      Reply(200, store[id := store[id].(
        name := if "name" in body then body["name"].s else store[id].name,
        isManager := if "is_manager" in body then ManagerFlag(body["is_manager"]).value else store[id].isManager)])
  {
    ParseCanonical(id);
  }

  /** Unlike add, update accepts a blank name. */
  lemma UpdateAcceptsBlankName(store: Store, id: string)
    requires IsCanonical(id) && id in store
    ensures UpdateEmployee(store, id, Some(map["name" := JStr(" ")])).status == 200
  {
    ParseCanonical(id);
    var body := map["name" := JStr(" ")];
    assert "name" in body && body != map[];
  }

  /** `delete_employee`: a malformed id answers 500, an unknown one 404;
      otherwise exactly that row is removed. */
  function DeleteEmployee(store: Store, id: string): (r: Reply)
    ensures r.status in {200, 404, 500}
    ensures r.status != 200 ==> r.store == store
    ensures ParseUuid(id).Some? && ParseUuid(id).value !in store ==> r.status == 404
    ensures r.status == 200 <==> ParseUuid(id).Some? && ParseUuid(id).value in store
    ensures r.status == 200 ==> r.store == store - {ParseUuid(id).value}
  {
    match ParseUuid(id)
    case None => Reply(500, store)
    case Some(key) =>
      if key !in store then Reply(404, store) else Reply(200, store - {key})
  }

  /** Deleting the employee just added with a generated id restores the table. */
  lemma AddThenDelete(store: Store, name: string, freshId: string)
    requires IsCanonical(freshId) && freshId !in store && Strings.Strip(name) != ""
    ensures var added := AddEmployee(store, Some(map["name" := JStr(name)]), freshId);
      added.status == 201 && DeleteEmployee(added.store, freshId) == Reply(200, store)
  {
    ParseCanonical(freshId);
    GeneratedIdUsed(store, name, freshId);
    assert store[freshId := Employee(freshId, name, false)] - {freshId} == store;
  }
}
