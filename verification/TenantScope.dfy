/** The rewrite that narrows one database operation to one organization (`packages/db/src/tenant-scope.ts`). */
module TenantScope {
  import opened Helpers
  import opened Wrappers

  /** A JavaScript value as an operation's arguments carry it. */
  datatype Value =
    | Undefined
    | Null
    | Bool(bool)
    | Num(int)
    | Str(string)
    | Arr(items: seq<Value>)
    | Rec(fields: map<string, Value>)

  datatype IsolationError = Banned | PlatformOperation | Unrecognised | WhereRequired | NotAnObject | OtherTenant | RelationSet

  const TENANT_FIELD := "organizationId"

  const FILTERED := {"findFirst", "findFirstOrThrow", "findMany", "count", "aggregate", "groupBy",
                     "update", "updateMany", "delete", "deleteMany"}

  const WRITES := {"create", "createMany", "createManyAndReturn"}

  const BANNED := {"findUnique", "findUniqueOrThrow", "upsert"}

  datatype Scope = Scope(model: string, operation: string, organizationId: string, tenantModels: set<string>, tenantRoot: Option<string>)

  /** A property read; a missing one reads as undefined. */
  function Get(fields: map<string, Value>, key: string): Value {
    if key in fields then fields[key] else Undefined
  }

  predicate Absent(v: Value) {
    v == Undefined || v == Null
  }

  function ApplyTenantScope(s: Scope, args: Value): Result<Value, IsolationError> {
    if Some(s.model) == s.tenantRoot then ScopeTenantRoot(s.operation, args, s.organizationId)
    else if s.model !in s.tenantModels then Ok(args)
    else if s.operation in BANNED then Err(Banned)
    else
      var fields := if args.Rec? then args.fields else map[];
      if s.operation in FILTERED then
        match NarrowWhere(Get(fields, "where"), s.organizationId, s.operation)
        case Ok(w) => Ok(Rec(fields["where" := w]))
        case Err(e) => Err(e)
      else if s.operation in WRITES then
        match StampTenant(Get(fields, "data"), s.organizationId)
        case Ok(d) => Ok(Rec(fields["data" := d]))
        case Err(e) => Err(e)
      else Err(Unrecognised)
  }

  function ScopeTenantRoot(operation: string, args: Value, organizationId: string): Result<Value, IsolationError> {
    if operation in BANNED then Err(Banned)
    else if operation in WRITES then Err(PlatformOperation)
    else if operation !in FILTERED then Err(Unrecognised)
    else
      var fields := if args.Rec? then args.fields else map[];
      var where := Get(fields, "where");
      if Absent(where) then Ok(Rec(fields["where" := Rec(map["id" := Str(organizationId)])]))
      else if !where.Rec? then Err(NotAnObject)
      else if Get(where.fields, "id") !in {Undefined, Str(organizationId)} then Err(OtherTenant)
      else Ok(Rec(fields["where" := Rec(where.fields["id" := Str(organizationId)])]))
  }

  function NarrowWhere(where: Value, organizationId: string, operation: string): Result<Value, IsolationError> {
    if Absent(where) then
      if operation == "update" || operation == "delete" then Err(WhereRequired)
      else Ok(Rec(map[TENANT_FIELD := Str(organizationId)]))
    else if !where.Rec? then Err(NotAnObject)
    else if Get(where.fields, TENANT_FIELD) !in {Undefined, Str(organizationId)} then Err(OtherTenant)
    else Ok(Rec(where.fields[TENANT_FIELD := Str(organizationId)]))
  }

  function StampTenant(data: Value, organizationId: string): Result<Value, IsolationError> {
    match data
    case Arr(items) =>
      var stamped := StampAll(items, organizationId);
      if stamped.Ok? then Ok(Arr(stamped.value)) else Err(stamped.error)
    case Undefined => Ok(Rec(map[TENANT_FIELD := Str(organizationId)]))
    case Null => Ok(Rec(map[TENANT_FIELD := Str(organizationId)]))
    case Rec(fields) =>
      if Get(fields, TENANT_FIELD) !in {Undefined, Str(organizationId)} then Err(OtherTenant)
      else if "organization" in fields then Err(RelationSet)
      else Ok(Rec(fields[TENANT_FIELD := Str(organizationId)]))
    case _ => Err(NotAnObject)
  }

  function StampAll(items: seq<Value>, organizationId: string): Result<seq<Value>, IsolationError> {
    if items == [] then Ok([]) else
      match StampTenant(items[0], organizationId)
      case Err(e) => Err(e)
      case Ok(v) =>
        match StampAll(items[1..], organizationId)
        case Err(e) => Err(e)
        case Ok(rest) => Ok([v] + rest)
  }

  // ---------------------------------------------------------------- the database

  type Row = map<string, Value>

  /**
    What the database makes of a single field test and of an update payload. Nothing is assumed of it but
    `Sound`; the connectives and the implicit conjunction of a record's keys are given below.
   */
  datatype Engine = Engine(test: (string, Value, Row) -> bool, patch: (Row, Value) -> Row)

  predicate Owns(tenant: string, row: Row) {
    Get(row, TENANT_FIELD) == Str(tenant)
  }

  /** Whether an update payload may change the tenant column, directly or through the relation. */
  predicate SetsTenant(data: Value) {
    data.Rec? && (Get(data.fields, TENANT_FIELD) != Undefined || "organization" in data.fields)
  }

  /** A string test of the tenant column is equality, and a payload that does not set it leaves it. */
  ghost predicate Sound(e: Engine) {
    && (forall id, row: Row :: e.test(TENANT_FIELD, Str(id), row) <==> Owns(id, row))
    && (forall row: Row, data :: !SetsTenant(data) ==> Get(e.patch(row, data), TENANT_FIELD) == Get(row, TENANT_FIELD))
  }

  /** A filter is the conjunction of its keys. */
  predicate Matches(e: Engine, where: Value, row: Row)
    decreases where, 1
  {
    match where
    case Rec(fields) => forall k :: k in fields ==> KeyMatches(e, k, fields[k], row)
    case _ => true
  }

  predicate KeyMatches(e: Engine, k: string, v: Value, row: Row)
    decreases v, 2
  {
    if v == Undefined then true
    else if k == "AND" then (if v.Arr? then forall i :: 0 <= i < |v.items| ==> Matches(e, v.items[i], row) else Matches(e, v, row))
    else if k == "OR" then (if v.Arr? then exists i :: 0 <= i < |v.items| && Matches(e, v.items[i], row) else Matches(e, v, row))
    else if k == "NOT" then (if v.Arr? then forall i :: 0 <= i < |v.items| ==> !Matches(e, v.items[i], row) else !Matches(e, v, row))
    else e.test(k, v, row)
  }

  /** Replace the selected rows, or only the first of them, by what `change` makes of each. */
  function Rewrite(table: seq<Row>, selected: Row -> bool, change: Row -> seq<Row>, firstOnly: bool): seq<Row> {
    if table == [] then []
    else if selected(table[0]) then change(table[0]) + if firstOnly then table[1..] else Rewrite(table[1..], selected, change, firstOnly)
    else [table[0]] + Rewrite(table[1..], selected, change, firstOnly)
  }

  /** The rows of a creation payload, nested arrays laid out in order. */
  function DataRows(data: Value): seq<Row> {
    match data
    case Arr(items) => AllDataRows(items)
    case Rec(fields) => [fields]
    case _ => []
  }

  function AllDataRows(items: seq<Value>): seq<Row> {
    if items == [] then [] else DataRows(items[0]) + AllDataRows(items[1..])
  }

  /** An answer is computed from the selected rows, in table order, and the arguments other than the filter. */
  datatype Answer = Refused | Missing | Selected(rows: seq<Row>, rest: map<string, Value>)

  function Fields(args: Value): map<string, Value> {
    if args.Rec? then args.fields else map[]
  }

  function Selects(e: Engine, where: Value): Row -> bool {
    row => Matches(e, where, row)
  }

  function Patches(e: Engine, data: Value): Row -> seq<Row> {
    row => [e.patch(row, data)]
  }

  function Drops(): Row -> seq<Row> {
    row => []
  }

  function Exec(e: Engine, operation: string, args: Value, table: seq<Row>): (seq<Row>, Answer) {
    var fields := Fields(args);
    var selects, data := Selects(e, Get(fields, "where")), Get(fields, "data");
    var found := Selected(Filter(table, selects), fields - {"where"});
    if operation in WRITES then (table + DataRows(data), Selected(DataRows(data), fields - {"data"}))
    else if operation in {"update", "delete"} && found.rows == [] then (table, Missing)
    else if operation in {"update", "updateMany"} then (Rewrite(table, selects, Patches(e, data), operation == "update"), found)
    else if operation in {"delete", "deleteMany"} then (Rewrite(table, selects, Drops(), operation == "delete"), found)
    else (table, found)
  }

  // ---------------------------------------------------------------- one table for everybody, one for each

  datatype Request = Request(tenant: string, operation: string, args: Value)

  function ScopeOf(model: string, r: Request): Scope {
    Scope(model, r.operation, r.tenant, {model}, None)
  }

  /** A request against the shared table, through the rewrite. */
  function Shared(e: Engine, model: string, r: Request, table: seq<Row>): (seq<Row>, Answer) {
    match ApplyTenantScope(ScopeOf(model, r), r.args)
    case Err(_) => (table, Refused)
    case Ok(args) => Exec(e, r.operation, args, table)
  }

  /** The same request against a table of the tenant's own: only what it creates is stamped, filters are the caller's. */
  function Private(e: Engine, model: string, r: Request, own: seq<Row>): (seq<Row>, Answer) {
    match ApplyTenantScope(ScopeOf(model, r), r.args)
    case Err(_) => (own, Refused)
    case Ok(args) => Exec(e, r.operation, if r.operation in WRITES then args else r.args, own)
  }

  function OwnedBy(tenant: string): Row -> bool {
    row => Owns(tenant, row)
  }

  function View(tenant: string, table: seq<Row>): seq<Row> {
    Filter(table, OwnedBy(tenant))
  }

  predicate KeepsTenant(r: Request) {
    r.operation in {"update", "updateMany"} ==> !SetsTenant(Get(Fields(r.args), "data"))
  }

  // ---------------------------------------------------------------- what the rewrite means

  /** A narrowed filter is the caller's filter and the tenant test, whatever else the database makes of its keys. */
  lemma NarrowExact(e: Engine, where: Value, tenant: string, operation: string, row: Row)
    requires Sound(e) && NarrowWhere(where, tenant, operation).Ok?
    ensures Matches(e, NarrowWhere(where, tenant, operation).value, row) <==> Matches(e, where, row) && Owns(tenant, row)
  {
    var narrowed := NarrowWhere(where, tenant, operation).value;
    assert KeyMatches(e, TENANT_FIELD, Str(tenant), row) <==> Owns(tenant, row);
    assert narrowed.fields[TENANT_FIELD] == Str(tenant);
    if where.Rec? {
      assert forall k :: k in narrowed.fields && k != TENANT_FIELD ==> k in where.fields && narrowed.fields[k] == where.fields[k];
      if TENANT_FIELD in where.fields {
        assert KeyMatches(e, TENANT_FIELD, where.fields[TENANT_FIELD], row)
          <==> where.fields[TENANT_FIELD] == Undefined || Owns(tenant, row);
      }
    }
  }

  /** The root's rewritten filter is the caller's filter and the test that the row is the organization itself. */
  lemma RootNarrowExact(e: Engine, operation: string, args: Value, tenant: string, row: Row)
    requires forall id, r: Row :: e.test("id", Str(id), r) <==> Get(r, "id") == Str(id)
    requires ScopeTenantRoot(operation, args, tenant).Ok?
    ensures
      var scoped := ScopeTenantRoot(operation, args, tenant).value;
      Matches(e, Get(Fields(scoped), "where"), row) <==> Matches(e, Get(Fields(args), "where"), row) && Get(row, "id") == Str(tenant)
  {
    var where := Get(Fields(args), "where");
    var narrowed := Get(Fields(ScopeTenantRoot(operation, args, tenant).value), "where");
    assert KeyMatches(e, "id", Str(tenant), row) <==> Get(row, "id") == Str(tenant);
    assert narrowed.fields["id"] == Str(tenant);
    if where.Rec? {
      assert forall k :: k in narrowed.fields && k != "id" ==> k in where.fields && narrowed.fields[k] == where.fields[k];
      if "id" in where.fields {
        assert KeyMatches(e, "id", where.fields["id"], row) <==> where.fields["id"] == Undefined || Get(row, "id") == Str(tenant);
      }
    }
  }

  /**
    What a tenant's client may do to the organization table: creation is refused outright; reading, updating
    and deleting, with one row or many, exactly when the filter is given and is no object or names another id.
   */
  lemma RootRefusesIff(operation: string, args: Value, tenant: string)
    ensures operation in WRITES ==> ScopeTenantRoot(operation, args, tenant) == Err(PlatformOperation)
    ensures operation in {"findUnique", "findUniqueOrThrow", "upsert"} ==> ScopeTenantRoot(operation, args, tenant) == Err(Banned)
    ensures operation in FILTERED ==>
      var where := Get(Fields(args), "where");
      (ScopeTenantRoot(operation, args, tenant).Err? <==>
        !Absent(where) && (where.Rec? ==> Get(where.fields, "id") != Undefined && Get(where.fields, "id") != Str(tenant)))
    ensures operation !in WRITES + FILTERED ==> ScopeTenantRoot(operation, args, tenant).Err?
  {
    hide Get;
  }

  /** So deleting the tenant's own organization is let through, unless the filter is malformed or names another. */
  lemma RootDeleteRefusedIff(operation: string, args: Value, tenant: string)
    requires operation == "delete" || operation == "deleteMany"
    ensures
      var where := Get(Fields(args), "where");
      (ScopeTenantRoot(operation, args, tenant).Err? <==>
        !Absent(where) && (where.Rec? ==> Get(where.fields, "id") != Undefined && Get(where.fields, "id") != Str(tenant)))
  {
    hide Get, ScopeTenantRoot;
    RootRefusesIff(operation, args, tenant);
  }

  // ---------------------------------------------------------------- the whole rewrite

  /** A filter the root takes: none, or an object that names no other organization. */
  predicate RootFilter(where: Value, tenant: string) {
    Absent(where) || (where.Rec? && (Get(where.fields, "id") == Undefined || Get(where.fields, "id") == Str(tenant)))
  }

  /**
    An operation on the organization table goes through exactly when it reads, updates or deletes by such a
    filter. What goes through is the caller's, but that it reaches the tenant's own organization alone.
   */
  lemma {:induction false} RootIsScoped(e: Engine, s: Scope, args: Value, row: Row)
    requires s.tenantRoot == Some(s.model)
    requires forall id, r: Row :: e.test("id", Str(id), r) <==> Get(r, "id") == Str(id)
    ensures ApplyTenantScope(s, args).Ok? <==>
      && s.operation in {"findFirst", "findFirstOrThrow", "findMany", "count", "aggregate", "groupBy",
                         "update", "updateMany", "delete", "deleteMany"}
      && RootFilter(Get(Fields(args), "where"), s.organizationId)
    ensures ApplyTenantScope(s, args).Ok? ==>
      var scoped := ApplyTenantScope(s, args).value;
      && scoped.Rec? && scoped.fields - {"where"} == Fields(args) - {"where"}
      && (Matches(e, Get(scoped.fields, "where"), row) <==>
            Matches(e, Get(Fields(args), "where"), row) && Get(row, "id") == Str(s.organizationId))
  {
    hide Matches;
    RootRefusesIff(s.operation, args, s.organizationId);
    if ApplyTenantScope(s, args).Ok? {
      RootNarrowExact(e, s.operation, args, s.organizationId, row);
    }
  }

  /** A model that is neither the root nor a tenant's keeps its arguments. */
  lemma OtherModelsPass(s: Scope, args: Value)
    requires s.tenantRoot != Some(s.model)
    ensures s.model !in s.tenantModels ==> ApplyTenantScope(s, args) == Ok(args)
  {
  }

  /** A filter a tenant's operation takes: an object that names no other tenant, or none where one row is not asked for. */
  predicate TenantFilter(where: Value, operation: string, tenant: string) {
    if Absent(where) then operation != "update" && operation != "delete"
    else where.Rec? && (Get(where.fields, TENANT_FIELD) == Undefined || Get(where.fields, TENANT_FIELD) == Str(tenant))
  }

  /**
    Filtered operations on a tenant's model go through exactly by such a filter, and then reach the tenant's
    rows of those the caller's filter matches.
   */
  lemma {:induction false} TenantReadsAreScoped(e: Engine, s: Scope, args: Value, row: Row)
    requires Sound(e) && s.tenantRoot != Some(s.model) && s.model in s.tenantModels
    requires s.operation in {"findFirst", "findFirstOrThrow", "findMany", "count", "aggregate", "groupBy",
                             "update", "updateMany", "delete", "deleteMany"}
    ensures ApplyTenantScope(s, args).Ok? <==> TenantFilter(Get(Fields(args), "where"), s.operation, s.organizationId)
    ensures ApplyTenantScope(s, args).Ok? ==>
      var scoped := ApplyTenantScope(s, args).value;
      && scoped.Rec? && scoped.fields - {"where"} == Fields(args) - {"where"}
      && (Matches(e, Get(scoped.fields, "where"), row) <==>
            Matches(e, Get(Fields(args), "where"), row) && Owns(s.organizationId, row))
  {
    hide Matches, Sound;
    if ApplyTenantScope(s, args).Ok? {
      NarrowExact(e, Get(Fields(args), "where"), s.organizationId, s.operation, row);
    }
  }

  /** Creations go through exactly when every row may be stamped, and then write the caller's rows with the tenant on each. */
  lemma {:induction false} TenantWritesAreStamped(s: Scope, args: Value)
    requires s.tenantRoot != Some(s.model) && s.model in s.tenantModels
    requires s.operation in {"create", "createMany", "createManyAndReturn"}
    ensures
      var data := Get(Fields(args), "data");
      (ApplyTenantScope(s, args).Ok? <==> OnlyPayloads(data) && AllStampable(PayloadRows(data), s.organizationId))
    ensures ApplyTenantScope(s, args).Ok? ==>
      var scoped := ApplyTenantScope(s, args).value;
      && scoped.Rec? && scoped.fields - {"data"} == Fields(args) - {"data"}
      && DataRows(Get(scoped.fields, "data")) == Stamped(PayloadRows(Get(Fields(args), "data")), s.organizationId)
  {
    hide Stamped, AllStampable, OnlyPayloads, PayloadRows, StampTenant, DataRows;
    StampExact(Get(Fields(args), "data"), s.organizationId);
  }

  /** Everything else is refused on a tenant's model: what looks rows up by unique keys alone, and what is not known. */
  lemma TenantRefusesTheRest(s: Scope, args: Value)
    requires s.tenantRoot != Some(s.model) && s.model in s.tenantModels
    requires s.operation !in {"findFirst", "findFirstOrThrow", "findMany", "count", "aggregate", "groupBy", "update", "updateMany",
                              "delete", "deleteMany", "create", "createMany", "createManyAndReturn"}
    ensures ApplyTenantScope(s, args) ==
      Err(if s.operation in {"findUnique", "findUniqueOrThrow", "upsert"} then Banned else Unrecognised)
  {
  }

  /** A payload row that may be stamped for a tenant. */
  predicate Stampable(row: Row, tenant: string) {
    Get(row, TENANT_FIELD) in {Undefined, Str(tenant)} && "organization" !in row
  }

  /** Objects, nothing at all, and arrays of these. */
  predicate OnlyPayloads(data: Value) {
    match data
    case Arr(items) => forall i :: 0 <= i < |items| ==> OnlyPayloads(items[i])
    case Rec(_) => true
    case _ => Absent(data)
  }

  /** The rows a caller asks to create: none given is one empty row. */
  function PayloadRows(data: Value): seq<Row> {
    match data
    case Arr(items) => AllPayloadRows(items)
    case Rec(fields) => [fields]
    case _ => [map[]]
  }

  function AllPayloadRows(items: seq<Value>): seq<Row> {
    if items == [] then [] else PayloadRows(items[0]) + AllPayloadRows(items[1..])
  }

  predicate AllStampable(rows: seq<Row>, tenant: string) {
    forall i :: 0 <= i < |rows| ==> Stampable(rows[i], tenant)
  }

  function Stamped(rows: seq<Row>, tenant: string): (r: seq<Row>)
    ensures |r| == |rows| && forall i :: 0 <= i < |rows| ==> r[i] == rows[i][TENANT_FIELD := Str(tenant)]
  {
    seq(|rows|, i requires 0 <= i < |rows| => rows[i][TENANT_FIELD := Str(tenant)])
  }

  /** Stamping succeeds exactly on objects of which none names another tenant or the relation, and then only adds the tenant. */
  lemma {:induction false} StampExact(data: Value, tenant: string)
    ensures StampTenant(data, tenant).Ok? <==> OnlyPayloads(data) && AllStampable(PayloadRows(data), tenant)
    ensures StampTenant(data, tenant).Ok? ==> DataRows(StampTenant(data, tenant).value) == Stamped(PayloadRows(data), tenant)
    decreases data
  {
    match data
    case Arr(items) => StampAllExact(items, tenant);
    case Rec(fields) =>
      assert PayloadRows(data)[0] == fields;
    case _ =>
      assert PayloadRows(data) == [map[]];
  }

  lemma {:induction false} StampAllExact(items: seq<Value>, tenant: string)
    ensures StampAll(items, tenant).Ok? <==>
      (forall i :: 0 <= i < |items| ==> OnlyPayloads(items[i])) && AllStampable(AllPayloadRows(items), tenant)
    ensures StampAll(items, tenant).Ok? ==> AllDataRows(StampAll(items, tenant).value) == Stamped(AllPayloadRows(items), tenant)
    decreases items
  {
    hide Stampable, OnlyPayloads, Stamped, AllStampable;
    if items == [] {
      NoneStamped(tenant);
    } else {
      var head, rest := PayloadRows(items[0]), AllPayloadRows(items[1..]);
      StampExact(items[0], tenant);
      StampAllExact(items[1..], tenant);
      StampedBoth(head, rest, tenant);
    }
  }

  lemma NoneStamped(tenant: string)
    ensures AllStampable([], tenant) && Stamped([], tenant) == []
  {
  }

  lemma StampedBoth(s: seq<Row>, t: seq<Row>, tenant: string)
    ensures AllStampable(s + t, tenant) <==> AllStampable(s, tenant) && AllStampable(t, tenant)
    ensures Stamped(s + t, tenant) == Stamped(s, tenant) + Stamped(t, tenant)
  {
    hide Stampable;
    assert forall i :: 0 <= i < |s| ==> (s + t)[i] == s[i];
    assert forall i :: 0 <= i < |t| ==> (s + t)[|s| + i] == t[i];
  }

  predicate AllOwned(rows: seq<Row>, tenant: string) {
    forall i :: 0 <= i < |rows| ==> Owns(tenant, rows[i])
  }

  /** However the payload is nested, every row written carries the tenant. */
  lemma {:induction false} StampedRowsOwned(data: Value, tenant: string)
    requires StampTenant(data, tenant).Ok?
    ensures AllOwned(DataRows(StampTenant(data, tenant).value), tenant)
    decreases data
  {
    match data
    case Arr(items) => AllStampedRowsOwned(items, tenant);
    case _ =>
  }

  lemma {:induction false} AllStampedRowsOwned(items: seq<Value>, tenant: string)
    requires StampAll(items, tenant).Ok?
    ensures AllOwned(AllDataRows(StampAll(items, tenant).value), tenant)
    decreases items
  {
    hide Owns, DataRows;
    if items != [] {
      StampedRowsOwned(items[0], tenant);
      AllStampedRowsOwned(items[1..], tenant);
      var stamped := StampAll(items, tenant).value;
      assert stamped[0] == StampTenant(items[0], tenant).value && stamped[1..] == StampAll(items[1..], tenant).value;
    }
  }

  // ---------------------------------------------------------------- tables and views

  lemma {:induction false} FilterBoth(table: seq<Row>, p: Row -> bool, q: Row -> bool, both: Row -> bool)
    requires forall row :: both(row) <==> p(row) && q(row)
    ensures Filter(table, both) == Filter(Filter(table, q), p)
    decreases table
  {
    if table != [] {
      FilterBoth(table[1..], p, q, both);
      var rest := Filter(table[1..], q);
      if q(table[0]) {
        assert Filter(table, q) == [table[0]] + rest && ([table[0]] + rest)[1..] == rest;
      }
    }
  }

  lemma {:induction false} FilterAppend(s: seq<Row>, t: seq<Row>, p: Row -> bool)
    ensures Filter(s + t, p) == Filter(s, p) + Filter(t, p)
    decreases s
  {
    if s == [] {
      assert s + t == t;
    } else {
      assert (s + t)[1..] == s[1..] + t;
      FilterAppend(s[1..], t, p);
    }
  }

  lemma {:induction false} FilterAllOrNone(s: seq<Row>, p: Row -> bool)
    ensures (forall i :: 0 <= i < |s| ==> p(s[i])) ==> Filter(s, p) == s
    ensures (forall i :: 0 <= i < |s| ==> !p(s[i])) ==> Filter(s, p) == []
    decreases s
  {
    if s != [] {
      FilterAllOrNone(s[1..], p);
    }
  }

  /** Every row that replaces a tenant's row is the tenant's. */
  ghost predicate Preserves(change: Row -> seq<Row>, tenant: string) {
    forall row :: Owns(tenant, row) ==> AllOwned(change(row), tenant)
  }

  /** Rewriting a tenant's selected rows in the shared table rewrites its view, and no other view. */
  lemma {:induction false} RewriteViews(table: seq<Row>, own: Row -> bool, scoped: Row -> bool, change: Row -> seq<Row>, first: bool, tenant: string, other: string)
    requires forall row :: scoped(row) <==> own(row) && Owns(tenant, row)
    requires Preserves(change, tenant) && other != tenant
    ensures View(tenant, Rewrite(table, scoped, change, first)) == Rewrite(View(tenant, table), own, change, first)
    ensures View(other, Rewrite(table, scoped, change, first)) == View(other, table)
    decreases table
  {
    hide Get, Owns;
    if table != [] {
      var row, rest := table[0], table[1..];
      RewriteViews(rest, own, scoped, change, first, tenant, other);
      var next := Rewrite(rest, scoped, change, first);
      if scoped(row) {
        ChangedRowViews(change(row), if first then rest else next, tenant, other);
        assert !Owns(other, row) by { OneOwner(row, tenant, other); }
        assert ([row] + View(tenant, rest))[1..] == View(tenant, rest);
      } else {
        assert ([row] + next)[1..] == next;
        assert ([row] + View(tenant, rest))[1..] == View(tenant, rest);
      }
    }
  }

  lemma OneOwner(row: Row, tenant: string, other: string)
    requires Owns(tenant, row) && tenant != other
    ensures !Owns(other, row)
  {
  }

  lemma ChangedRowViews(rows: seq<Row>, tail: seq<Row>, tenant: string, other: string)
    requires AllOwned(rows, tenant) && other != tenant
    ensures View(tenant, rows + tail) == rows + View(tenant, tail)
    ensures View(other, rows + tail) == View(other, tail)
  {
    forall i | 0 <= i < |rows| ensures !Owns(other, rows[i]) {
      OneOwner(rows[i], tenant, other);
    }
    FilterAppend(rows, tail, OwnedBy(tenant));
    FilterAppend(rows, tail, OwnedBy(other));
    FilterAllOrNone(rows, OwnedBy(tenant));
    FilterAllOrNone(rows, OwnedBy(other));
  }

  // ---------------------------------------------------------------- main results

  /** A filtered operation on the shared table does to its tenant's view what the caller's own filter does to a private table. */
  lemma FilteredRefines(e: Engine, operation: string, args: Value, tenant: string, table: seq<Row>, other: string)
    requires Sound(e) && operation in FILTERED && other != tenant
    requires NarrowWhere(Get(Fields(args), "where"), tenant, operation).Ok?
    requires operation in {"update", "updateMany"} ==> !SetsTenant(Get(Fields(args), "data"))
    ensures
      var w := NarrowWhere(Get(Fields(args), "where"), tenant, operation).value;
      var shared := Exec(e, operation, Rec(Fields(args)["where" := w]), table);
      var own := Exec(e, operation, args, View(tenant, table));
      && View(tenant, shared.0) == own.0 && View(other, shared.0) == View(other, table) && shared.1 == own.1
  {
    hide Matches, NarrowWhere, Owns, Filter, Rewrite, SetsTenant;
    var fields := Fields(args);
    var where, data := Get(fields, "where"), Get(fields, "data");
    var w := NarrowWhere(where, tenant, operation).value;
    var own, scoped := Selects(e, where), Selects(e, w);
    forall row ensures scoped(row) <==> own(row) && Owns(tenant, row) {
      NarrowExact(e, where, tenant, operation, row);
    }
    FilterBoth(table, own, OwnedBy(tenant), scoped);
    assert fields["where" := w] - {"where"} == fields - {"where"};
    if operation in {"update", "updateMany"} {
      PatchPreserves(e, data, tenant);
      RewriteViews(table, own, scoped, Patches(e, data), operation == "update", tenant, other);
    } else if operation in {"delete", "deleteMany"} {
      RewriteViews(table, own, scoped, Drops(), operation == "delete", tenant, other);
    }
  }

  lemma PatchPreserves(e: Engine, data: Value, tenant: string)
    requires Sound(e) && !SetsTenant(data)
    ensures Preserves(Patches(e, data), tenant)
  {
    hide SetsTenant;
  }

  lemma WriteRefines(e: Engine, operation: string, fields: map<string, Value>, data: Value, tenant: string, table: seq<Row>, other: string)
    requires operation in WRITES && other != tenant && StampTenant(data, tenant).Ok?
    ensures
      var args := Rec(fields["data" := StampTenant(data, tenant).value]);
      var shared := Exec(e, operation, args, table);
      var own := Exec(e, operation, args, View(tenant, table));
      && View(tenant, shared.0) == own.0 && View(other, shared.0) == View(other, table) && shared.1 == own.1
  {
    hide StampTenant, DataRows, Filter, Owns;
    var rows := DataRows(StampTenant(data, tenant).value);
    StampedRowsOwned(data, tenant);
    AppendedRowViews(table, rows, tenant, other);
  }

  lemma AppendedRowViews(table: seq<Row>, rows: seq<Row>, tenant: string, other: string)
    requires AllOwned(rows, tenant) && other != tenant
    ensures View(tenant, table + rows) == View(tenant, table) + rows
    ensures View(other, table + rows) == View(other, table)
  {
    hide Owns;
    FilterAppend(table, rows, OwnedBy(tenant));
    FilterAppend(table, rows, OwnedBy(other));
    assert rows + [] == rows && View(other, table) + [] == View(other, table);
    ChangedRowViews(rows, [], tenant, other);
  }

  /** One request: the same answer as from a private table, the same effect there, and none on anybody else's view. */
  lemma StepRefines(e: Engine, model: string, r: Request, table: seq<Row>, other: string)
    requires Sound(e) && KeepsTenant(r) && other != r.tenant
    ensures
      var shared, own := Shared(e, model, r, table), Private(e, model, r, View(r.tenant, table));
      && View(r.tenant, shared.0) == own.0 && shared.1 == own.1 && View(other, shared.0) == View(other, table)
  {
    hide Exec, NarrowWhere, StampTenant, Sound, View, SetsTenant;
    var fields := Fields(r.args);
    if r.operation in BANNED {
    } else if r.operation in FILTERED {
      if NarrowWhere(Get(fields, "where"), r.tenant, r.operation).Ok? {
        FilteredRefines(e, r.operation, r.args, r.tenant, table, other);
      }
    } else if r.operation in WRITES {
      if StampTenant(Get(fields, "data"), r.tenant).Ok? {
        WriteRefines(e, r.operation, fields, Get(fields, "data"), r.tenant, table, other);
      }
    }
  }

  /** A filter's connectives: all of its keys, all of `AND`, one of `OR`, none of `NOT`. */
  lemma ConnectivesAre(e: Engine, p: Value, q: Value, row: Row)
    ensures Matches(e, Rec(map["AND" := Arr([p, q])]), row) <==> Matches(e, p, row) && Matches(e, q, row)
    ensures Matches(e, Rec(map["OR" := Arr([p, q])]), row) <==> Matches(e, p, row) || Matches(e, q, row)
    ensures Matches(e, Rec(map["NOT" := Arr([p, q])]), row) <==> !Matches(e, p, row) && !Matches(e, q, row)
    ensures Matches(e, Rec(map[]), row)
  {
    assert |"AND"| == 3 && |"OR"| == 2 && "NOT"[0] != "AND"[0];
    var both := [p, q];
    assert both[0] == p && both[1] == q;
    One(e, "AND", Arr(both), row);
    One(e, "OR", Arr(both), row);
    One(e, "NOT", Arr(both), row);
  }

  lemma One(e: Engine, k: string, v: Value, row: Row)
    ensures Matches(e, Rec(map[k := v]), row) <==> KeyMatches(e, k, v, row)
  {
    hide KeyMatches;
    assert k in map[k := v];
  }

  function Unmatched(e: Engine, where: Value): Row -> bool {
    row => !Matches(e, where, row)
  }

  /** An accepted `deleteMany` leaves a tenant's view without what its filter matches, and nothing else is gone. */
  lemma {:induction false} DeletesOwnMatches(e: Engine, model: string, r: Request, table: seq<Row>, other: string)
    requires Sound(e) && r.operation == "deleteMany" && other != r.tenant
    requires NarrowWhere(Get(Fields(r.args), "where"), r.tenant, r.operation).Ok?
    ensures
      var after := Shared(e, model, r, table).0;
      && View(r.tenant, after) == Filter(View(r.tenant, table), Unmatched(e, Get(Fields(r.args), "where")))
      && View(other, after) == View(other, table)
  {
    hide Sound, Matches, NarrowWhere, View, Filter, Rewrite;
    StepRefines(e, model, r, table, other);
    DropIsFilter(View(r.tenant, table), Selects(e, Get(Fields(r.args), "where")), Unmatched(e, Get(Fields(r.args), "where")));
  }

  lemma {:induction false} DropIsFilter(table: seq<Row>, selected: Row -> bool, kept: Row -> bool)
    requires forall row :: kept(row) <==> !selected(row)
    ensures Rewrite(table, selected, Drops(), false) == Filter(table, kept)
    decreases table
  {
    if table != [] {
      DropIsFilter(table[1..], selected, kept);
    }
  }

  /** A `delete` or `update` that matches no row of the tenant's is answered as missing; a `delete` that matches takes the first. */
  lemma {:induction false} DeleteTakesFirst(e: Engine, model: string, r: Request, table: seq<Row>)
    requires Sound(e) && r.operation in {"delete", "update"}
    requires NarrowWhere(Get(Fields(r.args), "where"), r.tenant, r.operation).Ok?
    requires r.operation == "update" ==> !SetsTenant(Get(Fields(r.args), "data"))
    ensures
      var where, own, (after, answer) := Get(Fields(r.args), "where"), View(r.tenant, table), Shared(e, model, r, table);
      && (answer == Missing <==> forall i :: 0 <= i < |own| ==> !Matches(e, where, own[i]))
      && (r.operation == "delete" && answer != Missing ==> |View(r.tenant, after)| == |own| - 1)
      && (answer == Missing ==> View(r.tenant, after) == own)
  {
    hide Sound, Matches, NarrowWhere, View, SetsTenant, Filter, Rewrite;
    StepRefines(e, model, r, table, r.tenant + "'");
    var own, selects := View(r.tenant, table), Selects(e, Get(Fields(r.args), "where"));
    FoundIff(own, selects);
    FirstDropped(own, selects);
  }

  lemma {:induction false} FoundIff(table: seq<Row>, selected: Row -> bool)
    ensures Filter(table, selected) == [] <==> forall i :: 0 <= i < |table| ==> !selected(table[i])
    decreases table
  {
    if table != [] { FoundIff(table[1..], selected); }
  }

  lemma {:induction false} FirstDropped(table: seq<Row>, selected: Row -> bool)
    ensures Filter(table, selected) != [] ==> |Rewrite(table, selected, Drops(), true)| == |table| - 1
    decreases table
  {
    if table != [] { FirstDropped(table[1..], selected); }
  }

  function SharedRun(e: Engine, model: string, requests: seq<Request>, table: seq<Row>): (seq<Row>, seq<Answer>)
    decreases requests
  {
    if requests == [] then (table, []) else
      var (next, answer) := Shared(e, model, requests[0], table);
      var (last, answers) := SharedRun(e, model, requests[1..], next);
      (last, [answer] + answers)
  }

  function PrivateRun(e: Engine, model: string, requests: seq<Request>, own: seq<Row>): (seq<Row>, seq<Answer>)
    decreases requests
  {
    if requests == [] then (own, []) else
      var (next, answer) := Private(e, model, requests[0], own);
      var (last, answers) := PrivateRun(e, model, requests[1..], next);
      (last, [answer] + answers)
  }

  function RequestsOf(tenant: string, requests: seq<Request>): seq<Request> {
    if requests == [] then []
    else if requests[0].tenant == tenant then [requests[0]] + RequestsOf(tenant, requests[1..])
    else RequestsOf(tenant, requests[1..])
  }

  /** The answers a tenant receives in a run everybody shares. */
  function AnswersTo(tenant: string, requests: seq<Request>, answers: seq<Answer>): seq<Answer>
    requires |requests| == |answers|
  {
    if requests == [] then []
    else if requests[0].tenant == tenant then [answers[0]] + AnswersTo(tenant, requests[1..], answers[1..])
    else AnswersTo(tenant, requests[1..], answers[1..])
  }

  lemma {:induction false} RunAnswersAll(e: Engine, model: string, requests: seq<Request>, table: seq<Row>)
    ensures |SharedRun(e, model, requests, table).1| == |requests|
    decreases requests
  {
    hide Shared;
    if requests != [] {
      RunAnswersAll(e, model, requests[1..], Shared(e, model, requests[0], table).0);
    }
  }

  /**
    However the requests of many tenants interleave on one table, each tenant gets the answers, and is left
    with the rows, that its own requests alone would have given it on a private table.
   */
  lemma {:induction false} RunRefines(e: Engine, model: string, requests: seq<Request>, table: seq<Row>, tenant: string)
    requires Sound(e) && forall i :: 0 <= i < |requests| ==> KeepsTenant(requests[i])
    ensures |SharedRun(e, model, requests, table).1| == |requests|
    ensures
      var shared := SharedRun(e, model, requests, table);
      var own := PrivateRun(e, model, RequestsOf(tenant, requests), View(tenant, table));
      View(tenant, shared.0) == own.0 && AnswersTo(tenant, requests, shared.1) == own.1
    decreases requests
  {
    hide Sound, KeepsTenant, Shared, Private, View;
    RunAnswersAll(e, model, requests, table);
    if requests != [] {
      var r, rest := requests[0], requests[1..];
      var next := Shared(e, model, r, table).0;
      StepRefines(e, model, r, table, if r.tenant == tenant then tenant + "'" else tenant);
      RunRefines(e, model, rest, next, tenant);
      var shared := SharedRun(e, model, requests, table);
      assert shared.1[1..] == SharedRun(e, model, rest, next).1;
    }
  }

  // ---------------------------------------------------------------- update payloads

  /** What a payload field assigns: the value itself, or the one its `set` names. */
  function Target(v: Value): Value {
    if v.Rec? && "set" in v.fields then v.fields["set"] else v
  }

  /** The relation beside the tenant column. */
  const TENANT_RELATION := "organization"

  /** The tenant that a relation write connects: by its id, or the one `found` by another unique filter. */
  function Connected(found: Value -> Value, relation: Value): Value {
    if relation.Rec? && "connect" in relation.fields then
      var filter := relation.fields["connect"];
      if Get(Fields(filter), "id").Str? then Get(Fields(filter), "id") else found(filter)
    else Undefined
  }

  /** The tenant a payload moves a row to, if any: the one it connects, or else the one it assigns. */
  function TenantTarget(found: Value -> Value, data: Value): Value {
    var connected := Connected(found, Get(Fields(data), TENANT_RELATION));
    if connected != Undefined then connected else Target(Get(Fields(data), TENANT_FIELD))
  }

  /** The ways a payload names a tenant: outright, by `set`, by connecting an id, or whatever another unique filter finds. */
  lemma TargetsAre(found: Value -> Value, id: string, slug: string)
    ensures TenantTarget(found, Rec(map["organizationId" := Str(id)])) == Str(id)
    ensures TenantTarget(found, Rec(map["organizationId" := Rec(map["set" := Str(id)])])) == Str(id)
    ensures TenantTarget(found, Rec(map["organization" := Rec(map["connect" := Rec(map["id" := Str(id)])])])) == Str(id)
    ensures
      var filter := Rec(map["slug" := Str(slug)]);
      found(filter) != Undefined ==> TenantTarget(found, Rec(map["organization" := Rec(map["connect" := filter])])) == found(filter)
    ensures forall data :: !SetsTenant(data) ==> TenantTarget(found, data) == Undefined
  {
    assert |"organizationId"| == 14 && |"organization"| == 12 && |"slug"| == 4 && |"id"| == 2 && |"set"| == 3 && |"connect"| == 7;
    assert "organizationId" != "organization" && "slug" != "id" && "set" != "connect";
    forall data | !SetsTenant(data) ensures TenantTarget(found, data) == Undefined {
      LeavesTenant(found, data);
    }
  }

  /** The columns a payload assigns: those that have something to assign. */
  function Assigned(data: Value): Row {
    map k | k in Fields(data) && k != TENANT_RELATION && Target(Fields(data)[k]) != Undefined :: Target(Fields(data)[k])
  }

  /** A payload assigns its columns, and connecting the relation writes the tenant column. */
  function AssignTo(found: Value -> Value, row: Row, data: Value): Row {
    var columns, target := row + Assigned(data), TenantTarget(found, data);
    if target != Undefined then columns[TENANT_FIELD := target] else columns
  }

  function Assign(found: Value -> Value): (Row, Value) -> Row {
    (row, data) => AssignTo(found, row, data)
  }

  /** Such payloads are among those assumed of the database. */
  lemma AssignIsSound(test: (string, Value, Row) -> bool, found: Value -> Value)
    requires forall id, row: Row :: test(TENANT_FIELD, Str(id), row) <==> Owns(id, row)
    ensures Sound(Engine(test, Assign(found)))
  {
    hide Owns, Assign, TenantTarget;
    forall row: Row, data | !SetsTenant(data) ensures Get(Assign(found)(row, data), TENANT_FIELD) == Get(row, TENANT_FIELD) {
      AssignedTenant(found, row, data);
      LeavesTenant(found, data);
    }
  }

  lemma LeavesTenant(found: Value -> Value, data: Value)
    requires !SetsTenant(data)
    ensures TenantTarget(found, data) == Undefined
  {
    assert Get(Fields(data), TENANT_RELATION) == Undefined;
  }

  lemma AssignedColumn(data: Value)
    ensures Get(Assigned(data), TENANT_FIELD) == Target(Get(Fields(data), TENANT_FIELD))
  {
    assert |TENANT_FIELD| == 14 && |TENANT_RELATION| == 12;
    assert TENANT_FIELD != TENANT_RELATION;
  }

  lemma AssignedSome(data: Value)
    ensures forall k :: k in Assigned(data) ==> Assigned(data)[k] != Undefined
  {
    hide Target;
  }

  /** A row's tenant after a payload is assigned. */
  lemma AssignedTenant(found: Value -> Value, row: Row, data: Value)
    ensures Get(Assign(found)(row, data), TENANT_FIELD) ==
      if TenantTarget(found, data) != Undefined then TenantTarget(found, data) else Get(row, TENANT_FIELD)
  {
    hide Target, Connected, Assigned;
    AssignedColumn(data);
    var columns := Assigned(data);
    assert Get(row + columns, TENANT_FIELD) == if TENANT_FIELD in columns then columns[TENANT_FIELD] else Get(row, TENANT_FIELD);
    AssignedSome(data);
    assert Assign(found)(row, data) == AssignTo(found, row, data);
  }

  ghost predicate OwnRowSelected(e: Engine, tenant: string, where: Value) {
    exists row: Row :: Owns(tenant, row) && Matches(e, where, row)
  }

  /**
    The rewrite does not look into update payloads. With payloads that assign fields, outright or by `set`,
    and may connect the tenant relation, an accepted `update` or `updateMany` leaves every other tenant's view alone, whatever the table, exactly
    when its filter selects no row the tenant could own or its payload names no other tenant.
   */
  lemma UpdateIsolatedIff(test: (string, Value, Row) -> bool, found: Value -> Value, model: string, r: Request)
    requires forall id, row: Row :: test(TENANT_FIELD, Str(id), row) <==> Owns(id, row)
    requires r.operation == "update" || r.operation == "updateMany"
    requires NarrowWhere(Get(Fields(r.args), "where"), r.tenant, r.operation).Ok?
    ensures
      var e := Engine(test, Assign(found));
      var target := TenantTarget(found, Get(Fields(r.args), "data"));
      (forall table, other :: other != r.tenant ==> View(other, Shared(e, model, r, table).0) == View(other, table))
      <==> (OwnRowSelected(e, r.tenant, Get(Fields(r.args), "where")) ==> forall other :: other != r.tenant ==> target != Str(other))
  {
    hide View, Shared, Sound, Matches, Owns, Target, TenantTarget, NarrowWhere;
    var e := Engine(test, Assign(found));
    var where, target := Get(Fields(r.args), "where"), TenantTarget(found, Get(Fields(r.args), "data"));
    AssignIsSound(test, found);
    if OwnRowSelected(e, r.tenant, where) && exists other :: other != r.tenant && target == Str(other) {
      var other :| other != r.tenant && target == Str(other);
      var row: Row :| Owns(r.tenant, row) && Matches(e, where, row);
      MovedRow(e, found, model, r, row, other);
    } else {
      forall table, other | other != r.tenant ensures View(other, Shared(e, model, r, table).0) == View(other, table) {
        OthersUntouched(e, found, model, r, table, other);
      }
    }
  }

  /** So `organization: { connect: { id } }` in an update hands a tenant's row to any other. */
  lemma ConnectMovesRows(test: (string, Value, Row) -> bool, found: Value -> Value, model: string, tenant: string, other: string, row: Row)
    requires forall id, r: Row :: test(TENANT_FIELD, Str(id), r) <==> Owns(id, r)
    requires Owns(tenant, row) && other != tenant
    ensures
      var data := Rec(map["organization" := Rec(map["connect" := Rec(map["id" := Str(other)])])]);
      var r := Request(tenant, "updateMany", Rec(map["data" := data]));
      View(other, Shared(Engine(test, Assign(found)), model, r, [row]).0) != View(other, [row])
  {
    var e := Engine(test, Assign(found));
    var data := Rec(map["organization" := Rec(map["connect" := Rec(map["id" := Str(other)])])]);
    var r := Request(tenant, "updateMany", Rec(map["data" := data]));
    AssignIsSound(test, found);
    assert |"where"| == 5 && |"data"| == 4 && Get(r.args.fields, "where") == Undefined;
    assert Connected(found, Get(Fields(data), "organization")) == Str(other);
    hide Shared, Sound, View, Connected;
    MovedRow(e, found, model, r, row, other);
  }

  /** What an accepted update does to the shared table. */
  lemma UpdateIs(e: Engine, model: string, r: Request, table: seq<Row>) returns (where: Value)
    requires r.operation == "update" || r.operation == "updateMany"
    requires NarrowWhere(Get(Fields(r.args), "where"), r.tenant, r.operation).Ok?
    ensures where == NarrowWhere(Get(Fields(r.args), "where"), r.tenant, r.operation).value
    ensures
      var selects := Selects(e, where);
      Shared(e, model, r, table).0 ==
        if r.operation == "update" && Filter(table, selects) == [] then table
        else Rewrite(table, selects, Patches(e, Get(Fields(r.args), "data")), r.operation == "update")
  {
    hide Filter, Rewrite, Matches, NarrowWhere;
    where := NarrowWhere(Get(Fields(r.args), "where"), r.tenant, r.operation).value;
  }

  lemma MovedRow(e: Engine, found: Value -> Value, model: string, r: Request, row: Row, other: string)
    requires Sound(e) && e.patch == Assign(found) && other != r.tenant
    requires r.operation == "update" || r.operation == "updateMany"
    requires NarrowWhere(Get(Fields(r.args), "where"), r.tenant, r.operation).Ok?
    requires TenantTarget(found, Get(Fields(r.args), "data")) == Str(other)
    requires Owns(r.tenant, row) && Matches(e, Get(Fields(r.args), "where"), row)
    ensures View(other, Shared(e, model, r, [row]).0) != View(other, [row])
  {
    hide Shared, Sound, Matches, NarrowWhere, TenantTarget, Assign;
    var where := UpdateIs(e, model, r, [row]);
    NarrowExact(e, Get(Fields(r.args), "where"), r.tenant, r.operation, row);
    AssignedTenant(found, row, Get(Fields(r.args), "data"));
    assert Selects(e, where)(row) && [row][1..] == [];
    assert Owns(other, Assign(found)(row, Get(Fields(r.args), "data"))) && !Owns(other, row);
  }

  /** Rows of other tenants are not selected, and no selected row turns into theirs. */
  lemma {:induction false} RewriteSparesOthers(table: seq<Row>, selected: Row -> bool, change: Row -> seq<Row>, first: bool, other: string)
    requires forall row :: selected(row) ==> !Owns(other, row) && forall i :: 0 <= i < |change(row)| ==> !Owns(other, change(row)[i])
    ensures View(other, Rewrite(table, selected, change, first)) == View(other, table)
    decreases table
  {
    hide Owns, Filter;
    if table != [] {
      var row, tail, theirs := table[0], table[1..], OwnedBy(other);
      assert table == [row] + tail;
      FilterAppend([row], tail, theirs);
      RewriteSparesOthers(tail, selected, change, first, other);
      if selected(row) {
        FilterAllOrNone([row], theirs);
        FilterAllOrNone(change(row), theirs);
        FilterAppend(change(row), if first then tail else Rewrite(tail, selected, change, first), theirs);
      } else {
        FilterAppend([row], Rewrite(tail, selected, change, first), theirs);
      }
    }
  }

  lemma OthersUntouched(e: Engine, found: Value -> Value, model: string, r: Request, table: seq<Row>, other: string)
    requires Sound(e) && e.patch == Assign(found) && other != r.tenant
    requires r.operation == "update" || r.operation == "updateMany"
    requires NarrowWhere(Get(Fields(r.args), "where"), r.tenant, r.operation).Ok?
    requires OwnRowSelected(e, r.tenant, Get(Fields(r.args), "where")) ==> TenantTarget(found, Get(Fields(r.args), "data")) != Str(other)
    ensures View(other, Shared(e, model, r, table).0) == View(other, table)
  {
    hide Shared, Sound, Matches, NarrowWhere, TenantTarget, Assign, View;
    var data := Get(Fields(r.args), "data");
    var where := UpdateIs(e, model, r, table);
    var selects := Selects(e, where);
    forall row | selects(row) ensures !Owns(other, row) && !Owns(other, Patches(e, data)(row)[0]) {
      NarrowExact(e, Get(Fields(r.args), "where"), r.tenant, r.operation, row);
      OneOwner(row, r.tenant, other);
      AssignedTenant(found, row, data);
    }
    RewriteSparesOthers(table, selects, Patches(e, data), r.operation == "update", other);
  }
}
