/** `CRUDBase`, the generic store operations every model shares (read, list, create, partial
    update, deactivate), over rows held as attribute maps, and the audit-line helpers. */
module CrudBase {
  import opened Common

  /** A row's attributes by name. */
  type Attrs = map<string, Value>

  // ------------------------------------------------------------------- audit

  /** `str(v)` for an attribute value. */
  function ValueText(v: Value): string {
    match v
    case VInt(i) => IntToString(i)
    case VStr(s) => s
    case VBool(b) => if b then "True" else "False"
    case VNone => "None"
  }

  /** `' '.join(items)`. */
  function JoinSpace(items: seq<string>): string {
    if items == [] then ""
    else if |items| == 1 then items[0]
    else items[0] + " " + JoinSpace(items[1..])
  }

  /** The `k=v` words of an audit body, in the order of the keyword arguments. */
  function FieldWords(fields: seq<(string, Value)>): (r: seq<string>)
    ensures |r| == |fields|
    ensures forall i :: 0 <= i < |fields| ==> r[i] == fields[i].0 + "=" + ValueText(fields[i].1)
  {
    seq(|fields|, i requires 0 <= i < |fields| => fields[i].0 + "=" + ValueText(fields[i].1))
  }

  lemma {:induction false} JoinSpaceEmpty(items: seq<string>)
    requires forall i :: 0 <= i < |items| ==> items[i] != ""
    ensures JoinSpace(items) == "" <==> items == []
  {
    if |items| > 1 {
      assert |JoinSpace(items)| >= |items[0]|;
    }
  }

  /** The body `audit_event` logs as written: with a request id and no fields the literal text
      `req_id={rid}` is logged, since that string lacks the `f` prefix. */
  function AuditBodyAsWritten(fields: seq<(string, Value)>, rid: Option<string>): (r: string)
    ensures !Truthy(rid) ==> r == JoinSpace(FieldWords(fields))
    ensures Truthy(rid) && fields == [] ==> r == "req_id={rid}"
  {
    var body := JoinSpace(FieldWords(fields));
    if Truthy(rid) then (if body != "" then body + " req_id=" + rid.value else "req_id={rid}")
    else body
  }

  /** An audit event without fields logs the same text whatever the request id, so the id is
      lost: for "abc" the intended `req_id=abc` is not what is logged. */
  lemma AsWrittenDropsRequestId(a: string, b: string)
    requires a != "" && b != ""
    ensures AuditBodyAsWritten([], Some(a)) == AuditBodyAsWritten([], Some(b))
    ensures AuditBodyAsWritten([], Some("abc")) != AuditBody([], Some("abc"))
  {
    assert AuditBody([], Some("abc")) == "req_id=abc";
    assert "req_id={rid}"[7] != "req_id=abc"[7];
  }

  /** The audit body: the `k=v` words joined by spaces, then ` req_id=<rid>` when there is a
      request id (without the leading space when there are no fields). */
  function AuditBody(fields: seq<(string, Value)>, rid: Option<string>): (r: string)
    ensures !Truthy(rid) ==> r == JoinSpace(FieldWords(fields))
    ensures Truthy(rid) ==> EndsWith(r, "req_id=" + rid.value)
    ensures Truthy(rid) && fields != [] ==> r == JoinSpace(FieldWords(fields)) + " req_id=" + rid.value
    ensures Truthy(rid) && fields == [] ==> r == "req_id=" + rid.value
  {
    var body := JoinSpace(FieldWords(fields));
    JoinSpaceEmpty(FieldWords(fields));
    if Truthy(rid) then (if body != "" then body + " req_id=" + rid.value else "req_id=" + rid.value)
    else body
  }

  /** Every shown caller passes at least the `id` field, and then both bodies are the same. */
  lemma BodiesAgreeWithFields(fields: seq<(string, Value)>, rid: Option<string>)
    requires fields != []
    ensures AuditBodyAsWritten(fields, rid) == AuditBody(fields, rid)
  {
    JoinSpaceEmpty(FieldWords(fields));
  }

  /** `_resource_name`: the model's table name, or its class name in lower case. */
  function ResourceName(tablename: Option<string>, className: string): (r: string)
    ensures tablename.Some? ==> r == tablename.value
    ensures tablename.None? ==> |r| == |className| && forall i :: 0 <= i < |r| ==> r[i] == LowerChar(className[i])
  {
    if tablename.Some? then tablename.value else Lower(className)
  }

  /** The attributes `_collect_fk_fields` keeps: public names ending in `_id`. */
  predicate IsFkName(name: string) {
    !StartsWith(name, "_") && EndsWith(name, "_id")
  }

  /** `_collect_fk_fields`: `id` first, then every public `*_id` attribute in `vars(obj)` order. */
  method CollectFkFields(id: Value, vars: seq<(string, Value)>) returns (fields: seq<(string, Value)>)
    ensures fields == [("id", id)] + Filter(vars, (p: (string, Value)) => IsFkName(p.0))
    ensures forall p :: p in fields[1..] <==> p in vars && IsFkName(p.0)
  {
    fields := [("id", id)];
    var i := 0;
    while i < |vars|
      invariant 0 <= i <= |vars|
      invariant fields == [("id", id)] + Filter(vars[..i], (p: (string, Value)) => IsFkName(p.0))
    {
      var (name, val) := vars[i];
      FilterSnoc(vars[..i], vars[i], (p: (string, Value)) => IsFkName(p.0));
      assert vars[..i + 1] == vars[..i] + [vars[i]];
      if StartsWith(name, "_") {
        i := i + 1;
        continue;
      }
      if EndsWith(name, "_id") {
        fields := fields + [(name, val)];
      }
      i := i + 1;
    }
    assert vars[..|vars|] == vars;
    assert fields[1..] == Filter(vars, (p: (string, Value)) => IsFkName(p.0));
  }

  // ------------------------------------------------------------ partial update

  /** The value the last pair naming `k` carries. */
  function LastSent(data: seq<(string, Value)>, k: string): Option<Value> {
    if data == [] then None
    else if data[|data| - 1].0 == k then Some(data[|data| - 1].1)
    else LastSent(data[..|data| - 1], k)
  }

  /** `for field, value in update_data.items(): if hasattr(db_obj, field): setattr(...)`: the
      attributes keep their names; each takes the last value sent for it; unknown names are ignored. */
  function Assigned(attrs: Attrs, data: seq<(string, Value)>): (r: Attrs)
    ensures r.Keys == attrs.Keys
    ensures forall k :: k in attrs ==> r[k] == if LastSent(data, k).Some? then LastSent(data, k).value else attrs[k]
    decreases |data|
  {
    if data == [] then attrs
    else
      var prev := Assigned(attrs, data[..|data| - 1]);
      var (f, v) := data[|data| - 1];
      if f in prev then prev[f := v] else prev
  }

  /** Sending the same update twice gives what sending it once gives. */
  lemma AssignedIdempotent(attrs: Attrs, data: seq<(string, Value)>)
    ensures Assigned(Assigned(attrs, data), data) == Assigned(attrs, data)
  {
  }

  // ------------------------------------------------------------------ table

  /** `is_active IS TRUE`. */
  predicate ActiveRow(a: Attrs) {
    "is_active" in a && a["is_active"] == VBool(true)
  }

  /** The row after `deactivate`: an AttributeError naming the model when it has no
      `is_active`, else the same row with `is_active` false, which no active listing shows. */
  function Deactivated(className: string, a: Attrs): (r: Outcome<Attrs>)
    ensures r.Fail? <==> "is_active" !in a
    ensures r.Fail? ==> r == Fail(AttributeErr("Модель " + className + " не имеет поля is_active"))
    ensures r.Ok? ==> r.value.Keys == a.Keys && r.value["is_active"] == VBool(false) && !ActiveRow(r.value)
    ensures r.Ok? ==> forall k :: k in a && k != "is_active" ==> r.value[k] == a[k]
  {
    if "is_active" !in a then Fail(AttributeErr("Модель " + className + " не имеет поля is_active"))
    else Ok(a["is_active" := VBool(false)])
  }

  /** Deactivating twice is deactivating once. */
  lemma DeactivateIdempotent(className: string, a: Attrs)
    requires Deactivated(className, a).Ok?
    ensures Deactivated(className, Deactivated(className, a).value) == Deactivated(className, a)
  {
    assert a["is_active" := VBool(false)]["is_active" := VBool(false)] == a["is_active" := VBool(false)];
  }

  /** The table of one model: its mapped attributes, its column defaults and its rows. */
  class ModelTable {
    const className: string
    const tablename: Option<string>
    /** The mapped attributes; the constructor accepts no other keyword. */
    const columns: set<string>
    /** The values the INSERT supplies for columns the payload leaves out. */
    const defaults: map<string, Value>
    var rows: map<int, Attrs>
    var nextId: int

    /** Every row has exactly the model's attributes and a key below the next free id. */
    ghost predicate Valid()
      reads this
    {
      0 < nextId && "id" in columns && defaults.Keys <= columns
      && forall k :: k in rows ==> 0 < k < nextId && rows[k].Keys == columns
    }

    constructor (className: string, tablename: Option<string>, columns: set<string>, defaults: map<string, Value>)
      requires "id" in columns && defaults.Keys <= columns
      ensures Valid()
      ensures this.className == className && this.tablename == tablename
      ensures this.columns == columns && this.defaults == defaults && rows == map[]
    {
      this.className := className;
      this.tablename := tablename;
      this.columns := columns;
      this.defaults := defaults;
      rows := map[];
      nextId := 1;
    }

    /** `get`: the row with that primary key, if any. */
    function Get(id: int): (r: Option<Attrs>)
      reads this
      ensures r.Some? <==> id in rows
      ensures r.Some? ==> r.value == rows[id]
    {
      if id in rows then Some(rows[id]) else None
    }

    /** `get_multi`: all rows, or only the active ones when asked and the model has `is_active`. */
    function GetMulti(onlyActive: bool): (r: seq<Attrs>)
      reads this
      ensures forall a :: a in r <==> a in rows.Values && (onlyActive && "is_active" in columns ==> ActiveRow(a))
    {
      Filter(Rows(rows), (a: Attrs) => !(onlyActive && "is_active" in columns) || ActiveRow(a))
    }

    /** The row `self.model(**data)` inserts under `id`: the defaults, overridden by the payload. */
    function NewRow(id: int, data: Attrs): (r: Attrs)
      reads this
      requires "id" in columns && data.Keys <= columns
      ensures r.Keys == columns
      ensures r["id"] == VInt(id)
      ensures forall c :: c in data && c != "id" ==> r[c] == data[c]
      ensures forall c :: c in columns && c !in data && c != "id" ==> r[c] == if c in defaults then defaults[c] else VNone
    {
      var base := map c | c in columns :: if c in defaults then defaults[c] else VNone;
      (base + data)["id" := VInt(id)]
    }

    /** `create`: the payload with `user_id` set when one is given; a keyword the model does not
        map is a TypeError and nothing is written. */
    method Create(objIn: Attrs, userId: Option<int>) returns (r: Outcome<Attrs>)
      requires Valid()
      modifies this`rows, this`nextId
      ensures Valid()
      ensures var data := if userId.Some? then objIn["user_id" := VInt(userId.value)] else objIn;
              (r.Fail? <==> !(data.Keys <= columns))
              && (r.Fail? ==> r == Fail(Uncaught("TypeError")) && rows == old(rows) && nextId == old(nextId))
              && (r.Ok? ==> old(nextId) !in old(rows) && r.value == NewRow(old(nextId), data)
                            && rows == old(rows)[old(nextId) := r.value])
    {
      var data := objIn;
      if userId.Some? {
        data := data["user_id" := VInt(userId.value)];
      }
      if !(data.Keys <= columns) {
        return Fail(Uncaught("TypeError"));
      }
      var id := nextId;
      nextId := nextId + 1;
      var row := NewRow(id, data);
      rows := rows[id := row];
      r := Ok(row);
    }

    /** `update`: the stored row after the setattr loop. */
    method Update(id: int, data: seq<(string, Value)>) returns (r: Attrs)
      requires Valid() && id in rows
      modifies this`rows
      ensures Valid()
      ensures r == Assigned(old(rows[id]), data)
      ensures rows == old(rows)[id := r]
    {
      var obj := rows[id];
      var i := 0;
      while i < |data|
        invariant 0 <= i <= |data|
        invariant obj == Assigned(rows[id], data[..i])
      {
        assert data[..i + 1][..i] == data[..i];
        var (field, value) := data[i];
        if field in obj {
          obj := obj[field := value];
        }
        i := i + 1;
      }
      assert data[..|data|] == data;
      rows := rows[id := obj];
      r := obj;
    }

    /** `deactivate`: the row with `is_active` false, or an AttributeError and no write. */
    method Deactivate(id: int) returns (r: Outcome<Attrs>)
      requires Valid() && id in rows
      modifies this`rows
      ensures Valid()
      ensures r == Deactivated(className, old(rows[id]))
      ensures r.Fail? ==> rows == old(rows)
      ensures r.Ok? ==> rows == old(rows)[id := r.value]
    {
      var obj := rows[id];
      if "is_active" !in obj {
        return Fail(AttributeErr("Модель " + className + " не имеет поля is_active"));
      }
      obj := obj["is_active" := VBool(false)];
      rows := rows[id := obj];
      r := Ok(obj);
    }
  }
}
