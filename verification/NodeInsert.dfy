/** Writing the nodes of a graph in numbered batches (src/dsl.rs:938-941, src/dsl.rs:969-1017,
    src/dsl.rs:1412-1473). */
module NodeInsert {
  import opened Prelude

  const BATCH: nat := 1000
  const MAX_PARAMETERS: nat := 65535

  /** `MaterializedNode` */
  datatype Node = Node(id: string, nodeType: string, query: Option<string>, resultName: Option<string>,
                       left: Option<string>, right: Option<string>)

  /** A bound argument: SQL NULL, a string or a role's OID. */
  datatype Arg = Null | Str(s: string) | Role(oid: nat)

  /** What every node of one start shares. */
  datatype Start = Start(instance: string, user: nat, database: Option<string>, legacy: bool)

  function ArgOf(s: Option<string>): Arg {
    match s case None => Null case Some(v) => Str(v)
  }

  function Width(legacy: bool): nat { if legacy then 10 else 9 }

  datatype Column =
    | Id | InstanceId | NodeType | Query | ResultName | LeftNode | RightNode | SubmittedBy | LoginRole | Database

  /** The column list of the statement. */
  function Columns(legacy: bool): (r: seq<Column>)
    ensures |r| == Width(legacy)
    ensures forall i, j :: 0 <= i < j < |r| ==> r[i] != r[j]
  {
    if legacy then [Id, InstanceId, NodeType, Query, ResultName, LeftNode, RightNode, SubmittedBy, LoginRole, Database]
    else [Id, InstanceId, NodeType, Query, ResultName, LeftNode, RightNode, SubmittedBy, Database]
  }

  /** What a node has in a column. */
  function Field(start: Start, n: Node, c: Column): Arg {
    match c
    case Id => Str(n.id)
    case InstanceId => Str(start.instance)
    case NodeType => Str(n.nodeType)
    case Query => ArgOf(n.query)
    case ResultName => ArgOf(n.resultName)
    case LeftNode => ArgOf(n.left)
    case RightNode => ArgOf(n.right)
    case SubmittedBy => Role(start.user)
    case LoginRole => Role(start.user)
    case Database => ArgOf(start.database)
  }

  type Row = map<Column, Arg>

  /** The row the table should hold for a node. */
  function RowOf(start: Start, n: Node): Row {
    map c | c in Columns(start.legacy) :: Field(start, n, c)
  }

  function RowsOf(start: Start, nodes: seq<Node>): seq<Row> {
    seq(|nodes|, i requires 0 <= i < |nodes| => RowOf(start, nodes[i]))
  }

  /** The row in so many words. */
  lemma RowHolds(start: Start, n: Node)
    ensures var row := RowOf(start, n);
            && row.Keys == {Id, InstanceId, NodeType, Query, ResultName, LeftNode, RightNode, SubmittedBy, Database}
                           + (if start.legacy then {LoginRole} else {})
            && row[Id] == Str(n.id) && row[InstanceId] == Str(start.instance) && row[NodeType] == Str(n.nodeType)
            && (if n.query.Some? then row[Query] == Str(n.query.value) else row[Query] == Null)
            && (if n.resultName.Some? then row[ResultName] == Str(n.resultName.value) else row[ResultName] == Null)
            && (if n.left.Some? then row[LeftNode] == Str(n.left.value) else row[LeftNode] == Null)
            && (if n.right.Some? then row[RightNode] == Str(n.right.value) else row[RightNode] == Null)
            && row[SubmittedBy] == Role(start.user) && (start.legacy ==> row[LoginRole] == Role(start.user))
            && (if start.database.Some? then row[Database] == Str(start.database.value) else row[Database] == Null)
  {
    var columns := Columns(start.legacy);
    assert columns[0] == Id && columns[1] == InstanceId && columns[2] == NodeType && columns[3] == Query;
    assert columns[4] == ResultName && columns[5] == LeftNode && columns[6] == RightNode && columns[7] == SubmittedBy;
    assert if start.legacy then columns[8] == LoginRole && columns[9] == Database else columns[8] == Database;
  }

  // ----- the statement -----

  /** A placeholder `$number`, cast through OID to a role name or not. */
  datatype Slot = Slot(number: nat, role: bool)

  /** INSERT INTO df.nodes (columns) VALUES one tuple of placeholders a row. */
  datatype Statement = Statement(columns: seq<Column>, rows: seq<seq<Slot>>)

  predicate RowNumbered(legacy: bool, row: seq<Slot>, first: nat) {
    && |row| == Width(legacy)
    && forall c :: 0 <= c < |row| ==> row[c] == Slot(first + c, Columns(legacy)[c] in {SubmittedBy, LoginRole})
  }

  predicate Numbered(legacy: bool, rows: seq<seq<Slot>>) {
    forall r: nat :: r < |rows| ==> RowNumbered(legacy, rows[r], r * Width(legacy) + 1)
  }

  /** `node_insert_sql` */
  method NodeInsertSql(rowCount: nat, legacy: bool) returns (sql: Statement)
    ensures sql.columns == Columns(legacy) && |sql.rows| == rowCount && Numbered(legacy, sql.rows)
  {
    var rows: seq<seq<Slot>> := [];
    for rowIndex := 0 to rowCount
      invariant |rows| == rowIndex && Numbered(legacy, rows)
    {
      var first := rowIndex * Width(legacy) + 1;
      var row := [Slot(first, false), Slot(first + 1, false), Slot(first + 2, false), Slot(first + 3, false),
                  Slot(first + 4, false), Slot(first + 5, false), Slot(first + 6, false), Slot(first + 7, true)];
      if legacy {
        row := row + [Slot(first + 8, true), Slot(first + 9, false)];
      } else {
        row := row + [Slot(first + 8, false)];
      }
      assert RowNumbered(legacy, row, first);
      hide RowNumbered;
      rows := rows + [row];
    }
    sql := Statement(Columns(legacy), rows);
  }

  lemma Divide(k: nat, w: nat, r: nat, c: nat)
    requires w in {9, 10} && c < w
    ensures k == r * w + c <==> r == k / w && c == k % w
  {
  }

  lemma RowInRange(k: nat, w: nat, n: nat)
    requires w in {9, 10} && k < n * w
    ensures k / w < n && k % w < w
  {
  }

  /** Placeholder k, from 1 to rows × width, stands in row (k-1) div width and column
      (k-1) mod width, and nowhere else; there are no other placeholders. */
  lemma PlaceholderOnce(legacy: bool, rows: seq<seq<Slot>>, k: nat)
    requires Numbered(legacy, rows)
    ensures 1 <= k <= |rows| * Width(legacy) ==>
              var r, c := (k - 1) / Width(legacy), (k - 1) % Width(legacy);
              r < |rows| && c < |rows[r]| && rows[r][c].number == k
    ensures forall r: nat, c: nat :: r < |rows| && c < |rows[r]| && rows[r][c].number == k ==>
              1 <= k <= |rows| * Width(legacy) && r == (k - 1) / Width(legacy) && c == (k - 1) % Width(legacy)
  {
    var w := Width(legacy);
    if 1 <= k <= |rows| * w {
      var r, c := (k - 1) / w, (k - 1) % w;
      RowInRange(k - 1, w, |rows|);
      assert RowNumbered(legacy, rows[r], r * w + 1);
      Divide(k - 1, w, r, c);
    }
    forall r: nat, c: nat | r < |rows| && c < |rows[r]| && rows[r][c].number == k
      ensures 1 <= k <= |rows| * w && r == (k - 1) / w && c == (k - 1) % w
    {
      assert RowNumbered(legacy, rows[r], r * w + 1);
      assert k - 1 == r * w + c;
      Divide(k - 1, w, r, c);
      Below(r, c, w, |rows|);
    }
  }

  lemma Below(r: nat, c: nat, w: nat, n: nat)
    requires r < n && c < w
    ensures r * w + c < n * w
  {
    assert r + 1 <= n;
    assert (r + 1) * w <= n * w;
  }

  // ----- the table -----

  /** The arguments node after node. */
  function Flat(start: Start, nodes: seq<Node>): (r: seq<Arg>)
    ensures |r| == |nodes| * Width(start.legacy)
  {
    if nodes == [] then []
    else Flat(start, nodes[..|nodes| - 1]) + Values(start, nodes[|nodes| - 1])
  }

  function Values(start: Start, n: Node): (r: seq<Arg>)
    ensures |r| == Width(start.legacy)
  {
    seq(Width(start.legacy), i requires 0 <= i < Width(start.legacy) => Field(start, n, Columns(start.legacy)[i]))
  }

  lemma {:induction false} FlatAt(start: Start, nodes: seq<Node>, r: nat, c: nat)
    requires r < |nodes| && c < Width(start.legacy)
    ensures r * Width(start.legacy) + c < |Flat(start, nodes)|
    ensures Flat(start, nodes)[r * Width(start.legacy) + c] == Field(start, nodes[r], Columns(start.legacy)[c])
  {
    hide Field, Columns;
    var w, n := Width(start.legacy), |nodes| - 1;
    Below(r, c, w, |nodes|);
    if r < n {
      FlatAt(start, nodes[..n], r, c);
    } else {
      assert |Flat(start, nodes[..n])| == r * w;
    }
  }

  /** What a statement with bound arguments stores: each tuple's value in its column. The
      role cast needs a role. */
  predicate Binds(sql: Statement, args: seq<Arg>) {
    forall r: nat, c: nat :: r < |sql.rows| && c < |sql.rows[r]| ==>
      && 1 <= sql.rows[r][c].number <= |args|
      && (sql.rows[r][c].role <==> args[sql.rows[r][c].number - 1].Role?)
  }

  predicate Executable(sql: Statement, args: seq<Arg>) {
    && |args| <= MAX_PARAMETERS
    && (forall r: nat :: r < |sql.rows| ==> |sql.rows[r]| == |sql.columns|)
    && (forall i, j :: 0 <= i < j < |sql.columns| ==> sql.columns[i] != sql.columns[j])
    && Binds(sql, args)
  }

  function IndexOf(columns: seq<Column>, c: Column): (i: nat)
    requires c in columns
    ensures i < |columns| && columns[i] == c
  {
    if columns[0] == c then 0 else 1 + IndexOf(columns[1..], c)
  }

  function StoredRow(sql: Statement, args: seq<Arg>, r: nat): Row
    requires Executable(sql, args) && r < |sql.rows|
  {
    map c | c in sql.columns :: args[sql.rows[r][IndexOf(sql.columns, c)].number - 1]
  }

  function Stored(sql: Statement, args: seq<Arg>): (rows: seq<Row>)
    requires Executable(sql, args)
    ensures |rows| == |sql.rows| && forall r :: 0 <= r < |rows| ==> rows[r] == StoredRow(sql, args, r)
  {
    seq(|sql.rows|, r requires 0 <= r < |sql.rows| => StoredRow(sql, args, r))
  }

  lemma SlotBinds(start: Start, nodes: seq<Node>, rows: seq<seq<Slot>>, r: nat, c: nat)
    requires |rows| == |nodes| && Numbered(start.legacy, rows) && r < |rows|
    requires c < Width(start.legacy)
    ensures |rows[r]| == Width(start.legacy)
    ensures 1 <= rows[r][c].number <= |Flat(start, nodes)|
    ensures Flat(start, nodes)[rows[r][c].number - 1] == Field(start, nodes[r], Columns(start.legacy)[c])
    ensures rows[r][c].role <==> Columns(start.legacy)[c] in {SubmittedBy, LoginRole}
  {
    assert RowNumbered(start.legacy, rows[r], r * Width(start.legacy) + 1);
    hide Numbered, Columns, Flat, Field;
    FlatAt(start, nodes, r, c);
  }

  /** The numbering and the arguments fit: the statement is within the parameter limit, every
      cast meets a role, and what is stored is the batch, row by row and column by column. */
  lemma StatementStoresBatch(start: Start, nodes: seq<Node>, sql: Statement)
    requires |nodes| <= BATCH && |sql.rows| == |nodes|
    requires sql.columns == Columns(start.legacy) && Numbered(start.legacy, sql.rows)
    ensures Executable(sql, Flat(start, nodes)) && Stored(sql, Flat(start, nodes)) == RowsOf(start, nodes)
    ensures |Flat(start, nodes)| <= 65535
  {
    var args := Flat(start, nodes);
    hide Flat, Numbered, Columns;
    assert |args| <= MAX_PARAMETERS;
    forall r: nat | r < |sql.rows| ensures |sql.rows[r]| == Width(start.legacy) {
      SlotBinds(start, nodes, sql.rows, r, 0);
    }
    forall r: nat, c: nat | r < |sql.rows| && c < |sql.rows[r]|
      ensures 1 <= sql.rows[r][c].number <= |args| && (sql.rows[r][c].role <==> args[sql.rows[r][c].number - 1].Role?)
    {
      SlotBinds(start, nodes, sql.rows, r, c);
    }
    forall r: nat | r < |nodes| ensures StoredRow(sql, args, r) == RowOf(start, nodes[r]) {
      forall c | c in sql.columns ensures StoredRow(sql, args, r)[c] == Field(start, nodes[r], c) {
        SlotBinds(start, nodes, sql.rows, r, IndexOf(sql.columns, c));
      }
    }
  }

  class Table {
    var rows: seq<Row>
    ghost var faults: nat      // statements that raised an error so far

    /** One statement with its arguments; a failing one aborts the transaction. */
    method Run(sql: Statement, args: seq<Arg>) returns (ok: bool)
      requires Executable(sql, args)
      modifies this
      ensures ok ==> rows == old(rows) + Stored(sql, args)
      ensures faults == old(faults) + (if ok then 0 else 1)
    {
      ok := *;
      if ok {
        rows := rows + Stored(sql, args);
      } else {
        faults := faults + 1;
      }
    }

    /** One round of the loop: bind the batch, number its statement, run it. */
    method InsertBatch(start: Start, batch: seq<Node>) returns (ok: bool)
      requires |batch| <= BATCH
      modifies this
      ensures ok ==> rows == old(rows) + RowsOf(start, batch)
      ensures faults == old(faults) + (if ok then 0 else 1)
    {
      hide Executable, Stored, RowsOf, Numbered, Columns, Flat;
      var args := BindBatch(start, batch);
      var sql := NodeInsertSql(|batch|, start.legacy);
      StatementStoresBatch(start, batch, sql);
      ok := Run(sql, args);
    }

    /** `insert_nodes`: the batches partition the list in order; after all of them the table
        has gained exactly the nodes' rows. */
    method InsertNodes(start: Start, nodes: seq<Node>) returns (ok: bool)
      modifies this
      ensures ok ==> rows == old(rows) + RowsOf(start, nodes)
      ensures faults == old(faults) + (if ok then 0 else 1)
    {
      hide RowsOf;
      ghost var before := rows;
      var from := 0;
      assert nodes[..0] == [];
      NoRows(start, rows);
      while from < |nodes|
        invariant from <= |nodes| && rows == before + RowsOf(start, nodes[..from]) && faults == old(faults)
      {
        var to := if from + BATCH <= |nodes| then from + BATCH else |nodes|;
        ok := InsertBatch(start, nodes[from..to]);
        if !ok {
          return false;
        }
        BatchJoins(start, nodes, from, to);
        from := to;
      }
      assert nodes[..|nodes|] == nodes;
      ok := true;
    }
  }

  lemma BatchJoins(start: Start, nodes: seq<Node>, from: nat, to: nat)
    requires from <= to <= |nodes|
    ensures RowsOf(start, nodes[..to]) == RowsOf(start, nodes[..from]) + RowsOf(start, nodes[from..to])
  {
    hide RowOf;
  }

  lemma NoRows(start: Start, rows: seq<Row>)
    ensures rows + RowsOf(start, []) == rows
  {
  }

  /** The argument list of a batch, one node after the other. */
  method BindBatch(start: Start, batch: seq<Node>) returns (args: seq<Arg>)
    ensures args == Flat(start, batch)
  {
    args := [];
    for i := 0 to |batch|
      invariant args == Flat(start, batch[..i])
    {
      var node := batch[i];
      var values := [Str(node.id), Str(start.instance), Str(node.nodeType), ArgOf(node.query), ArgOf(node.resultName),
                     ArgOf(node.left), ArgOf(node.right), Role(start.user)];
      if start.legacy {
        values := values + [Role(start.user)];
      }
      values := values + [ArgOf(start.database)];
      assert values == Values(start, node);
      hide Values;
      assert batch[..i + 1][..i] == batch[..i];
      args := args + values;
    }
    assert batch[..|batch|] == batch;
  }
}
