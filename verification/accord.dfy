/** Accord transactions: LET reads that guard a block of writes, with positional parameters.

A transaction is written with `?` placeholders and its values are bound by position, in
the order the text names them.  It returns the row its SELECT projects and nothing that
says whether the IF fired.
 */
module Accord {
  import opened Options

  datatype Table =
    | SessionsOpen | SessionSeqApplied | SessionTimeline
    | ZoneOccupancy | ZoneClearance | DroneClearance

  datatype Column =
    | UserId | SessionId | Seq | EventId | EventTime | EventType | Payload
    | ZoneId | ZoneName | Severity | Capacity | Remaining | EntityId | GrantedAt

  datatype Value = Text(text: string) | Number(number: int) | Moment(at: int)

  type Row = map<Column, Value>

  /** A primary key of up to three columns, which is as wide as these tables have. */
  datatype Key = One(a: Value) | Two(a: Value, b: Value) | Three(a: Value, b: Value, c: Value) | NoKey

  function ToKey(values: seq<Value>): Key {
    if |values| == 1 then One(values[0])
    else if |values| == 2 then Two(values[0], values[1])
    else if |values| == 3 then Three(values[0], values[1], values[2])
    else NoKey
  }

  /** A table is its rows by primary key; a column a row does not have is null. */
  type Rows = map<Key, Row>

  type Store = map<Table, Rows>

  function RowsOf(store: Store, table: Table): Rows {
    if table in store then store[table] else map[]
  }

  function KeyColumns(table: Table): seq<Column> {
    match table
    case SessionsOpen => [UserId, SessionId]
    case SessionSeqApplied => [UserId, SessionId, Seq]
    case SessionTimeline => [UserId, SessionId, Seq]
    case ZoneOccupancy => [ZoneId]
    case ZoneClearance => [ZoneId, EntityId]
    case DroneClearance => [EntityId]
  }

  // ----- the text

  /** The names a transaction gives its reads. */
  datatype Name = SessionOk | Already | PrevOk | Occ | Held

  /** LET name = (SELECT .. FROM table WHERE column = ? AND ..). */
  datatype Read = Let(name: Name, table: Table, wheres: seq<Column>)

  datatype Reference = WholeRow(name: Name) | Field(name: Name, column: Column)

  /** One conjunct of the IF. */
  datatype Guard =
    | IsNull(ref: Reference)
    | IsNotNull(ref: Reference)
    | Above(ref: Reference, bound: int)
    | EqualsBound(ref: Reference)

  datatype Write =
    | Insert(table: Table, columns: seq<Column>)
    | AddTo(table: Table, column: Column, delta: int, wheres: seq<Column>)
    | Delete(table: Table, wheres: seq<Column>)

  datatype Transaction = Transaction(
    lets: seq<Read>, projection: seq<Reference>, condition: seq<Guard>, writes: seq<Write>)

  // ----- placeholders, counted in the order of the text

  function ReadHoles(lets: seq<Read>): nat {
    if lets == [] then 0 else |lets[0].wheres| + ReadHoles(lets[1..])
  }

  function GuardHole(guard: Guard): nat {
    if guard.EqualsBound? then 1 else 0
  }

  function GuardHoles(guards: seq<Guard>): nat {
    if guards == [] then 0 else GuardHole(guards[0]) + GuardHoles(guards[1..])
  }

  function WriteHole(write: Write): nat {
    if write.Insert? then |write.columns| else |write.wheres|
  }

  function WriteHoles(writes: seq<Write>): nat {
    if writes == [] then 0 else WriteHole(writes[0]) + WriteHoles(writes[1..])
  }

  function Holes(t: Transaction): nat {
    ReadHoles(t.lets) + GuardHoles(t.condition) + WriteHoles(t.writes)
  }

  // ----- what Accord takes

  /** A row is read, changed or deleted by its whole primary key; an insert gives all of it. */
  predicate ByKey(write: Write) {
    match write
    case Insert(table, columns) => forall c :: c in KeyColumns(table) ==> c in columns
    case AddTo(table, _, _, wheres) => wheres == KeyColumns(table)
    case Delete(table, wheres) => wheres == KeyColumns(table)
  }

  predicate Binds(lets: seq<Read>, ref: Reference) { exists l :: l in lets && l.name == ref.name }

  /** Every reference is to a LET, and every row is found by its key. */
  predicate WellFormed(t: Transaction) {
    && (forall l :: l in t.lets ==> l.wheres == KeyColumns(l.table))
    && (forall w :: w in t.writes ==> ByKey(w))
    && (forall ref :: ref in t.projection ==> Binds(t.lets, ref))
    && (forall g :: g in t.condition ==> Binds(t.lets, g.ref))
  }

  // ----- what it does

  type Env = map<Name, Option<Row>>

  /** The row with a primary key, if there is one. */
  function Fetch(store: Store, table: Table, key: Key): Option<Row> {
    if key in RowsOf(store, table) then Some(RowsOf(store, table)[key]) else None
  }

  function Reads(lets: seq<Read>, values: seq<Value>, store: Store): Env
    requires |values| == ReadHoles(lets)
  {
    if lets == [] then map[]
    else
      var n := |lets[0].wheres|;
      Reads(lets[1..], values[n..], store)
        [lets[0].name := Fetch(store, lets[0].table, ToKey(values[..n]))]
  }

  /** The value a reference reads, None for null. */
  function Lookup(env: Env, ref: Reference): Option<Value>
    requires ref.Field?
  {
    if ref.name in env && env[ref.name].Some? && ref.column in env[ref.name].value
    then Some(env[ref.name].value[ref.column]) else None
  }

  predicate Null(env: Env, ref: Reference) {
    match ref
    case WholeRow(name) => name !in env || env[name].None?
    case Field(_, _) => Lookup(env, ref).None?
  }

  /** One conjunct.  A comparison with null is false. */
  predicate Holds(guard: Guard, values: seq<Value>, env: Env)
    requires |values| == GuardHole(guard)
  {
    match guard
    case IsNull(ref) => Null(env, ref)
    case IsNotNull(ref) => !Null(env, ref)
    case Above(ref, bound) =>
      ref.Field? && match Lookup(env, ref) { case Some(Number(n)) => n > bound case _ => false }
    case EqualsBound(ref) => ref.Field? && Lookup(env, ref) == Some(values[0])
  }

  predicate AllHold(guards: seq<Guard>, values: seq<Value>, env: Env)
    requires |values| == GuardHoles(guards)
  {
    if guards == [] then true
    else
      var n := GuardHole(guards[0]);
      Holds(guards[0], values[..n], env) && AllHold(guards[1..], values[n..], env)
  }

  /** The columns of an INSERT with the values bound to them. */
  function Bound(columns: seq<Column>, values: seq<Value>): Row
    requires |columns| == |values|
  {
    if columns == [] then map[]
    else Bound(columns[1..], values[1..])[columns[0] := values[0]]
  }

  /** The primary key among a row's columns. */
  function KeyOf(row: Row, columns: seq<Column>): seq<Value> {
    if columns == [] then []
    else (if columns[0] in row then [row[columns[0]]] else []) + KeyOf(row, columns[1..])
  }

  /** An insert is an upsert of its row; an addition to a null column leaves it null. */
  function WriteRow(write: Write, values: seq<Value>, rows: Rows): Rows
    requires |values| == WriteHole(write)
  {
    match write
    case Insert(table, columns) =>
      var row := Bound(columns, values);
      var key := ToKey(KeyOf(row, KeyColumns(table)));
      rows[key := (if key in rows then rows[key] else map[]) + row]
    case AddTo(_, column, delta, _) =>
      var key := ToKey(values);
      if key in rows && column in rows[key] && rows[key][column].Number?
      then rows[key := rows[key][column := Number(rows[key][column].number + delta)]]
      else rows
    case Delete(_, _) => rows - {ToKey(values)}
  }

  function Writes(writes: seq<Write>, values: seq<Value>, store: Store): Store
    requires |values| == WriteHoles(writes)
  {
    if writes == [] then store
    else
      var n := WriteHole(writes[0]);
      var table := writes[0].table;
      Writes(writes[1..], values[n..],
             store[table := WriteRow(writes[0], values[..n], RowsOf(store, table))])
  }

  /** What the client sees: a null is a projected column without a value. */
  type Projection = map<Reference, Option<Value>>

  function Project(projection: seq<Reference>, env: Env): Projection {
    map ref | ref in projection && ref.Field? :: Lookup(env, ref)
  }

  /** A column the client looks up in a projection: absent and null are the same. */
  function Projected(p: Projection, name: Name, column: Column): Option<Value> {
    if Field(name, column) in p then p[Field(name, column)] else None
  }

  datatype Outcome =
    | Rejected
    | Ran(store: Store, projection: Projection, fired: bool)

  /** Run a transaction with its values bound by position; one that is not well formed, or has
      another number of values, is rejected. */
  function Execute(t: Transaction, values: seq<Value>, store: Store): Outcome {
    if !WellFormed(t) || |values| != Holes(t) then Rejected
    else
      var r, g := ReadHoles(t.lets), GuardHoles(t.condition);
      var env := Reads(t.lets, values[..r], store);
      var fired := AllHold(t.condition, values[r..r + g], env);
      Ran(if fired then Writes(t.writes, values[r + g..], store) else store,
          Project(t.projection, env),
          fired)
  }

  /** The values fall into three stretches: for the reads, for the condition, for the writes. */
  lemma ExecuteParts(t: Transaction, r: seq<Value>, g: seq<Value>, w: seq<Value>, store: Store)
    requires WellFormed(t)
    requires |r| == ReadHoles(t.lets) && |g| == GuardHoles(t.condition) && |w| == WriteHoles(t.writes)
    ensures
      var env := Reads(t.lets, r, store);
      var fired := AllHold(t.condition, g, env);
      Execute(t, r + g + w, store)
      == Ran(if fired then Writes(t.writes, w, store) else store, Project(t.projection, env), fired)
  {
    var values := r + g + w;
    assert values[..|r|] == r && values[|r|..|r| + |g|] == g && values[|r| + |g|..] == w;
  }

  // ----- one part at a time

  lemma ReadsCons(first: Read, rest: seq<Read>, v: seq<Value>, vs: seq<Value>, store: Store)
    requires |v| == |first.wheres| && |vs| == ReadHoles(rest)
    ensures ReadHoles([first] + rest) == |v| + |vs|
    ensures Reads([first] + rest, v + vs, store)
         == Reads(rest, vs, store)[first.name := Fetch(store, first.table, ToKey(v))]
  {
    assert ([first] + rest)[1..] == rest;
    assert (v + vs)[..|v|] == v && (v + vs)[|v|..] == vs;
  }

  lemma AllHoldCons(first: Guard, rest: seq<Guard>, v: seq<Value>, vs: seq<Value>, env: Env)
    requires |v| == GuardHole(first) && |vs| == GuardHoles(rest)
    ensures GuardHoles([first] + rest) == |v| + |vs|
    ensures AllHold([first] + rest, v + vs, env) == (Holds(first, v, env) && AllHold(rest, vs, env))
  {
    assert ([first] + rest)[1..] == rest;
    assert (v + vs)[..|v|] == v && (v + vs)[|v|..] == vs;
  }

  lemma WritesCons(first: Write, rest: seq<Write>, v: seq<Value>, vs: seq<Value>, store: Store)
    requires |v| == WriteHole(first) && |vs| == WriteHoles(rest)
    ensures WriteHoles([first] + rest) == |v| + |vs|
    ensures Writes([first] + rest, v + vs, store)
         == Writes(rest, vs, store[first.table := WriteRow(first, v, RowsOf(store, first.table))])
  {
    assert ([first] + rest)[1..] == rest;
    assert (v + vs)[..|v|] == v && (v + vs)[|v|..] == vs;
  }

  /** An insert of a whole row, over a row with no other columns, leaves just that row. */
  lemma UpsertRow(write: Write, values: seq<Value>, rows: Rows, key: Key, row: Row)
    requires write.Insert? && |values| == |write.columns|
    requires Bound(write.columns, values) == row && ToKey(KeyOf(row, KeyColumns(write.table))) == key
    requires key in rows ==> rows[key].Keys <= row.Keys
    ensures WriteRow(write, values, rows) == rows[key := row]
  {
    var none: Row := map[];
    assert none + row == row;
    assert key in rows ==> rows[key] + row == row;
  }

  lemma BoundCons(c: Column, cs: seq<Column>, v: Value, vs: seq<Value>)
    requires |cs| == |vs|
    ensures Bound([c] + cs, [v] + vs) == Bound(cs, vs)[c := v]
  {
    assert ([c] + cs)[1..] == cs && ([v] + vs)[1..] == vs;
  }

  lemma KeyOfCons(row: Row, c: Column, cs: seq<Column>)
    requires c in row
    ensures KeyOf(row, [c] + cs) == [row[c]] + KeyOf(row, cs)
  {
    assert ([c] + cs)[1..] == cs;
  }

  lemma BoundThree(a: Column, b: Column, c: Column, x: Value, y: Value, z: Value)
    ensures Bound([a, b, c], [x, y, z]) == map[c := z][b := y][a := x]
  {
    BoundCons(c, [], z, []);
    BoundCons(b, [c], y, [z]);
    BoundCons(a, [b, c], x, [y, z]);
    assert [c] == [c] + [] && [z] == [z] + [];
    assert [b, c] == [b] + [c] && [y, z] == [y] + [z];
    assert [a, b, c] == [a] + [b, c] && [x, y, z] == [x] + [y, z];
  }

  lemma KeyOne(row: Row, a: Column)
    requires a in row
    ensures KeyOf(row, [a]) == [row[a]]
  {
    KeyOfCons(row, a, []);
    assert [a] == [a] + [];
  }

  lemma KeyTwo(row: Row, a: Column, b: Column)
    requires a in row && b in row
    ensures KeyOf(row, [a, b]) == [row[a], row[b]]
  {
    KeyOne(row, b);
    KeyOfCons(row, a, [b]);
    assert [a, b] == [a] + [b];
  }

  lemma KeyThree(row: Row, a: Column, b: Column, c: Column)
    requires a in row && b in row && c in row
    ensures KeyOf(row, [a, b, c]) == [row[a], row[b], row[c]]
  {
    KeyTwo(row, b, c);
    KeyOfCons(row, a, [b, c]);
    assert [a, b, c] == [a] + [b, c];
  }
}
