/**
 Folding one account's rows into another's: duplicates under the per-user unique
 keys are dropped, the rest is repointed, and stored paths are rewritten.
 */
module AccountMerge {
  import opened Wrappers

  type UserId = nat
  type RowId = nat

  datatype Value = Null | Text(text: string) | Num(num: int) | Flag(flag: bool)

  datatype Row = Row(owner: UserId, columns: map<string, Value>)

  /** A unique key: with or without the owner column, over all rows or only those flagged. */
  datatype Key = Key(perOwner: bool, columns: seq<string>, only: Option<string>)

  datatype Table = Table(name: string, keys: seq<Key>, rows: map<RowId, Row>)

  function Column(row: Row, c: string): Value {
    if c in row.columns then row.columns[c] else Null
  }

  predicate Covers(key: Key, row: Row) {
    key.only.Some? ==> Column(row, key.only.value) == Flag(true)
  }

  function Tuple(key: Key, row: Row): seq<Value> {
    seq(|key.columns|, i requires 0 <= i < |key.columns| => Column(row, key.columns[i]))
  }

  /** Two covered rows the database would refuse together: equal key values, none of them NULL. */
  ghost predicate Clash(key: Key, a: Row, b: Row) {
    && Covers(key, a) && Covers(key, b) && (key.perOwner ==> a.owner == b.owner)
    && Tuple(key, a) == Tuple(key, b) && Null !in Tuple(key, a)
  }

  ghost predicate Unique(key: Key, rows: map<RowId, Row>) {
    forall i, j :: i in rows && j in rows && i != j ==> !Clash(key, rows[i], rows[j])
  }

  ghost predicate Sound(t: Table) {
    forall k :: k in t.keys ==> Unique(k, t.rows)
  }

  function OwnedBy(rows: map<RowId, Row>, owner: UserId): set<RowId> {
    set id | id in rows && rows[id].owner == owner
  }

  // ---------- dropping what would collide ----------

  /** The absorbed rows this key would see twice: the survivor already holds their values. */
  function Doomed(rows: map<RowId, Row>, key: Key, keep: UserId, absorb: UserId): set<RowId> {
    set id | id in rows && rows[id].owner == absorb && Covers(key, rows[id])
             && exists k :: k in rows && rows[k].owner == keep
                 && Covers(key, rows[k]) && Tuple(key, rows[k]) == Tuple(key, rows[id])
  }

  function Without(rows: map<RowId, Row>, gone: set<RowId>): map<RowId, Row> {
    map id | id in rows && id !in gone :: rows[id]
  }

  function DropColliding(rows: map<RowId, Row>, keys: seq<Key>, keep: UserId, absorb: UserId): map<RowId, Row> {
    if keys == [] then rows
    else
      var k := keys[0];
      DropColliding(if k.perOwner then Without(rows, Doomed(rows, k, keep, absorb)) else rows, keys[1..], keep, absorb)
  }

  /** Some per-user key finds the absorbed row's values already on the survivor. */
  ghost predicate Collides(rows: map<RowId, Row>, keys: seq<Key>, keep: UserId, absorb: UserId, id: RowId) {
    exists i :: 0 <= i < |keys| && keys[i].perOwner && id in Doomed(rows, keys[i], keep, absorb)
  }

  /** The loop over the keys; each pass deletes by id and adds to the counter. */
  method DropCollidingRows(t: Table, keep: UserId, absorb: UserId) returns (rows: map<RowId, Row>, dropped: nat)
    ensures rows == DropColliding(t.rows, t.keys, keep, absorb)
    ensures dropped == |t.rows.Keys - rows.Keys|
  {
    hide Covers, Tuple, DropColliding, Without;
    rows, dropped := t.rows, 0;
    for i := 0 to |t.keys|
      invariant DropColliding(rows, t.keys[i..], keep, absorb) == DropColliding(t.rows, t.keys, keep, absorb)
      invariant rows.Keys <= t.rows.Keys && dropped == |t.rows.Keys - rows.Keys|
    {
      DropStep(rows, t.keys, i, keep, absorb);
      if t.keys[i].perOwner {
        var doomed := Doomed(rows, t.keys[i], keep, absorb);
        DropCount(t.rows.Keys, rows, doomed);
        dropped := dropped + |doomed|;
        rows := Without(rows, doomed);
      }
    }
    DropNone(rows, t.keys, keep, absorb);
  }

  lemma DropStep(rows: map<RowId, Row>, keys: seq<Key>, i: nat, keep: UserId, absorb: UserId)
    requires i < |keys|
    ensures var k := keys[i];
            DropColliding(rows, keys[i..], keep, absorb)
            == DropColliding(if k.perOwner then Without(rows, Doomed(rows, k, keep, absorb)) else rows,
                keys[i + 1..], keep, absorb)
  {
    hide Doomed, Without;
    assert keys[i..][0] == keys[i] && keys[i..][1..] == keys[i + 1..];
  }

  lemma DropNone(rows: map<RowId, Row>, keys: seq<Key>, keep: UserId, absorb: UserId)
    ensures DropColliding(rows, keys[|keys|..], keep, absorb) == rows
  {
  }

  lemma DropCount(all: set<RowId>, rows: map<RowId, Row>, gone: set<RowId>)
    requires rows.Keys <= all && gone <= rows.Keys
    ensures Without(rows, gone).Keys <= all && |all - Without(rows, gone).Keys| == |all - rows.Keys| + |gone|
  {
    var left := Without(rows, gone);
    assert all - left.Keys == (all - rows.Keys) + gone;
  }

  /** Dropping removes exactly the absorbed rows that collide, judged on the table as it was. */
  lemma {:induction false} DroppedExactly(rows: map<RowId, Row>, keys: seq<Key>, keep: UserId, absorb: UserId)
    requires keep != absorb
    ensures var left := DropColliding(rows, keys, keep, absorb);
            && (forall id :: id in left <==> id in rows && !Collides(rows, keys, keep, absorb, id))
            && (forall id :: id in left ==> left[id] == rows[id])
    decreases |keys|
  {
    if keys != [] {
      var k, rest := keys[0], keys[1..];
      var next := if k.perOwner then Without(rows, Doomed(rows, k, keep, absorb)) else rows;
      DroppedExactly(next, rest, keep, absorb);
      forall id | id in rows
        ensures Collides(rows, keys, keep, absorb, id)
                <==> (k.perOwner && id in Doomed(rows, k, keep, absorb)) || (id in next && Collides(next, rest, keep, absorb, id))
      {
        CollidesStep(rows, keys, keep, absorb, id);
      }
    }
  }

  /** Deleting absorbed rows changes no other verdict: verdicts look at the survivor's rows only. */
  lemma DoomedStable(rows: map<RowId, Row>, gone: set<RowId>, key: Key, keep: UserId, absorb: UserId)
    requires keep != absorb && gone <= OwnedBy(rows, absorb)
    ensures Doomed(Without(rows, gone), key, keep, absorb) == Doomed(rows, key, keep, absorb) - gone
  {
    hide Covers, Tuple;
    var left := Without(rows, gone);
    forall id | id in Doomed(rows, key, keep, absorb) && id !in gone
      ensures id in Doomed(left, key, keep, absorb)
    {
      var k :| k in rows && rows[k].owner == keep && Covers(key, rows[k]) && Tuple(key, rows[k]) == Tuple(key, rows[id]);
      assert k in left && left[k] == rows[k];
    }
  }

  lemma CollidesStep(rows: map<RowId, Row>, keys: seq<Key>, keep: UserId, absorb: UserId, id: RowId)
    requires keep != absorb && keys != [] && id in rows
    ensures var k, rest := keys[0], keys[1..];
            var next := if k.perOwner then Without(rows, Doomed(rows, k, keep, absorb)) else rows;
            Collides(rows, keys, keep, absorb, id)
            <==> (k.perOwner && id in Doomed(rows, k, keep, absorb)) || (id in next && Collides(next, rest, keep, absorb, id))
  {
    hide Doomed, Without;
    var k, rest := keys[0], keys[1..];
    var gone := if k.perOwner then Doomed(rows, k, keep, absorb) else {};
    var next := if k.perOwner then Without(rows, gone) else rows;
    StepFacts(rows, gone, k, keep, absorb, id);
    if Collides(rows, keys, keep, absorb, id) {
      var i :| 0 <= i < |keys| && keys[i].perOwner && id in Doomed(rows, keys[i], keep, absorb);
      if i > 0 && !(k.perOwner && id in gone) {
        NextVerdict(rows, gone, k, rest[i - 1], keep, absorb);
        assert keys[i] == rest[i - 1] && id in Doomed(next, rest[i - 1], keep, absorb);
      }
    }
    if id in next && Collides(next, rest, keep, absorb, id) {
      var i :| 0 <= i < |rest| && rest[i].perOwner && id in Doomed(next, rest[i], keep, absorb);
      NextVerdict(rows, gone, k, rest[i], keep, absorb);
      assert keys[i + 1] == rest[i] && id in Doomed(rows, keys[i + 1], keep, absorb);
    }
  }

  lemma NextVerdict(rows: map<RowId, Row>, gone: set<RowId>, k: Key, key: Key, keep: UserId, absorb: UserId)
    requires keep != absorb && gone == if k.perOwner then Doomed(rows, k, keep, absorb) else {}
    ensures var next := if k.perOwner then Without(rows, gone) else rows;
            Doomed(next, key, keep, absorb) == Doomed(rows, key, keep, absorb) - gone
  {
    hide Covers, Tuple;
    if k.perOwner {
      DoomedStable(rows, gone, key, keep, absorb);
    }
  }

  lemma StepFacts(rows: map<RowId, Row>, gone: set<RowId>, k: Key, keep: UserId, absorb: UserId, id: RowId)
    requires id in rows && gone == if k.perOwner then Doomed(rows, k, keep, absorb) else {}
    ensures id in (if k.perOwner then Without(rows, gone) else rows) <==> id !in gone
  {
    hide Covers, Tuple;
  }

  // ---------- moving the rest ----------

  function MoveRows(rows: map<RowId, Row>, keep: UserId, absorb: UserId): map<RowId, Row> {
    map id | id in rows :: if rows[id].owner == absorb then rows[id].(owner := keep) else rows[id]
  }

  function MergeTable(t: Table, keep: UserId, absorb: UserId): Table {
    t.(rows := MoveRows(DropColliding(t.rows, t.keys, keep, absorb), keep, absorb))
  }

  /** Every full and partial unique key still holds after the absorbed rows have moved. */
  lemma MergeKeepsKeysUnique(t: Table, keep: UserId, absorb: UserId)
    requires Sound(t) && keep != absorb
    ensures Sound(MergeTable(t, keep, absorb))
  {
    var left := DropColliding(t.rows, t.keys, keep, absorb);
    var after := MergeTable(t, keep, absorb).rows;
    DroppedExactly(t.rows, t.keys, keep, absorb);
    forall k | k in t.keys ensures Unique(k, after) {
      forall i, j | i in after && j in after && i != j ensures !Clash(k, after[i], after[j]) {
        NoClashAfter(t, keep, absorb, k, i, j);
      }
    }
  }

  lemma NoClashAfter(t: Table, keep: UserId, absorb: UserId, k: Key, i: RowId, j: RowId)
    requires keep != absorb && k in t.keys && Unique(k, t.rows) && i != j
    requires i in t.rows && j in t.rows
    requires !Collides(t.rows, t.keys, keep, absorb, i) && !Collides(t.rows, t.keys, keep, absorb, j)
    ensures var a, b := t.rows[i], t.rows[j];
            !Clash(k, if a.owner == absorb then a.(owner := keep) else a, if b.owner == absorb then b.(owner := keep) else b)
  {
    var a, b := t.rows[i], t.rows[j];
    var a', b' := if a.owner == absorb then a.(owner := keep) else a, if b.owner == absorb then b.(owner := keep) else b;
    SameTuple(k, a, keep);
    SameTuple(k, b, keep);
    hide Covers, Tuple;
    assert !Clash(k, a, b);
    var n :| 0 <= n < |t.keys| && t.keys[n] == k;
    assert k.perOwner ==> i !in Doomed(t.rows, k, keep, absorb) && j !in Doomed(t.rows, k, keep, absorb);
  }

  lemma SameTuple(k: Key, row: Row, keep: UserId)
    ensures Tuple(k, row.(owner := keep)) == Tuple(k, row) && Covers(k, row.(owner := keep)) == Covers(k, row)
  {
  }

  /**
   What the merge does to the rows of one table: the survivor's and strangers'
   rows are untouched, no row is left on the absorbed account, and every absorbed
   row either moved whole or was dropped for a collision.
   */
  lemma MergeAccountsForEveryRow(t: Table, keep: UserId, absorb: UserId)
    requires keep != absorb
    ensures var after := MergeTable(t, keep, absorb).rows;
            && after.Keys <= t.rows.Keys
            && (forall id :: id in t.rows && t.rows[id].owner != absorb ==> id in after && after[id] == t.rows[id])
            && (forall id :: id in after ==> after[id].owner != absorb)
            && (forall id :: id in t.rows && t.rows[id].owner == absorb ==>
                  if Collides(t.rows, t.keys, keep, absorb, id) then id !in after
                  else id in after && after[id] == t.rows[id].(owner := keep))
  {
    DroppedExactly(t.rows, t.keys, keep, absorb);
    hide DropColliding, Collides;
    forall id | id in t.rows && t.rows[id].owner != absorb ensures !Collides(t.rows, t.keys, keep, absorb, id) {
      NotDoomed(t.rows, t.keys, keep, absorb, id);
    }
  }

  datatype Fate = Moved | Dropped

  /** How many of a table's absorbed rows met this fate. */
  ghost function CountOf(t: Table, keep: UserId, absorb: UserId, fate: Fate): nat {
    var after := MergeTable(t, keep, absorb).rows;
    match fate
    case Moved => |after.Keys * OwnedBy(t.rows, absorb)|
    case Dropped => |t.rows.Keys - after.Keys|
  }

  lemma SplitCount(owned: set<RowId>, after: set<RowId>, all: set<RowId>)
    requires owned <= all && after <= all && all - after <= owned
    ensures |after * owned| + |all - after| == |owned|
  {
    assert owned == after * owned + (all - after);
  }

  lemma KeysAfter(t: Table, keep: UserId, absorb: UserId)
    requires keep != absorb
    ensures var left := DropColliding(t.rows, t.keys, keep, absorb);
            var after := MergeTable(t, keep, absorb).rows;
            after.Keys == left.Keys && OwnedBy(left, absorb) == after.Keys * OwnedBy(t.rows, absorb)
  {
    DroppedExactly(t.rows, t.keys, keep, absorb);
    hide DropColliding, Collides;
  }

  /** Moved plus dropped is what the absorbed account owned. */
  lemma MergeCountsAddUp(t: Table, keep: UserId, absorb: UserId)
    requires keep != absorb
    ensures CountOf(t, keep, absorb, Moved) + CountOf(t, keep, absorb, Dropped) == |OwnedBy(t.rows, absorb)|
    ensures var left := DropColliding(t.rows, t.keys, keep, absorb);
            && |OwnedBy(left, absorb)| == CountOf(t, keep, absorb, Moved)
            && |t.rows.Keys - left.Keys| == CountOf(t, keep, absorb, Dropped)
  {
    MergeAccountsForEveryRow(t, keep, absorb);
    KeysAfter(t, keep, absorb);
    hide DropColliding, Collides, MergeTable;
    SplitCount(OwnedBy(t.rows, absorb), MergeTable(t, keep, absorb).rows.Keys, t.rows.Keys);
  }

  lemma NotDoomed(rows: map<RowId, Row>, keys: seq<Key>, keep: UserId, absorb: UserId, id: RowId)
    requires id in rows && rows[id].owner != absorb
    ensures !Collides(rows, keys, keep, absorb, id)
  {
    hide Covers, Tuple;
  }

  /** Had this absorbed row moved, the key would have been broken by a row of the survivor. */
  ghost predicate WouldClash(rows: map<RowId, Row>, key: Key, keep: UserId, id: RowId)
    requires id in rows
  {
    exists k :: k in rows && rows[k].owner == keep && Clash(key, rows[k], rows[id].(owner := keep))
  }

  /**
   A row that a key dooms would have broken that key exactly when its values hold
   no NULL: the code compares values, where the database lets NULLs repeat.
   */
  lemma DoomedClashesIffNoNull(rows: map<RowId, Row>, key: Key, keep: UserId, absorb: UserId, id: RowId)
    requires key.perOwner && id in Doomed(rows, key, keep, absorb)
    ensures WouldClash(rows, key, keep, id) <==> Null !in Tuple(key, rows[id])
  {
    SameTuple(key, rows[id], keep);
    hide Covers, Tuple;
    var k :| k in rows && rows[k].owner == keep && Covers(key, rows[k]) && Tuple(key, rows[k]) == Tuple(key, rows[id]);
    if Null !in Tuple(key, rows[id]) {
      assert Clash(key, rows[k], rows[id].(owner := keep));
    }
  }

  lemma ClashesAreDoomed(rows: map<RowId, Row>, key: Key, keep: UserId, absorb: UserId, id: RowId)
    requires id in rows && rows[id].owner == absorb && WouldClash(rows, key, keep, id)
    ensures id in Doomed(rows, key, keep, absorb)
  {
    SameTuple(key, rows[id], keep);
    hide Covers, Tuple;
  }

  /** The values a per-user key compares are never NULL on the absorbed account's rows. */
  ghost predicate KeysFilled(t: Table, absorb: UserId) {
    forall key, id :: key in t.keys && key.perOwner && id in OwnedBy(t.rows, absorb) ==> Null !in Tuple(key, t.rows[id])
  }

  lemma OwnedIs(rows: map<RowId, Row>, owner: UserId, id: RowId)
    ensures id in OwnedBy(rows, owner) <==> id in rows && rows[id].owner == owner
  {
  }

  /** Where key columns are never NULL, a row is dropped exactly when moving it would have broken a key. */
  lemma DropsExactlyTheClashes(t: Table, keep: UserId, absorb: UserId, id: RowId)
    requires keep != absorb && id in t.rows && t.rows[id].owner == absorb && KeysFilled(t, absorb)
    ensures id !in MergeTable(t, keep, absorb).rows
        <==> exists key :: key in t.keys && key.perOwner && WouldClash(t.rows, key, keep, id)
  {
    MergeAccountsForEveryRow(t, keep, absorb);
    hide MergeTable, Doomed, WouldClash, Tuple, OwnedBy;
    assert id in OwnedBy(t.rows, absorb) by { OwnedIs(t.rows, absorb, id); }
    if Collides(t.rows, t.keys, keep, absorb, id) {
      var i :| 0 <= i < |t.keys| && t.keys[i].perOwner && id in Doomed(t.rows, t.keys[i], keep, absorb);
      assert t.keys[i] in t.keys;
      DoomedClashesIffNoNull(t.rows, t.keys[i], keep, absorb, id);
    }
    if key :| key in t.keys && key.perOwner && WouldClash(t.rows, key, keep, id) {
      ClashesAreDoomed(t.rows, key, keep, absorb, id);
      var i :| 0 <= i < |t.keys| && t.keys[i] == key;
    }
  }

  /** Over a nullable key column the merge drops a row the database would have let move. */
  lemma NullsAreDroppedForNothing()
    ensures var key := Key(true, ["label"], None);
            var rows := map[0 := Row(1, map["label" := Null]), 1 := Row(2, map["label" := Null])];
            var t := Table("t", [key], rows);
            && Sound(t) && 1 !in MergeTable(t, 1, 2).rows && !WouldClash(rows, key, 1, 1)
            && Unique(key, MoveRows(rows, 1, 2))
  {
    var key := Key(true, ["label"], None);
    var rows := map[0 := Row(1, map["label" := Null]), 1 := Row(2, map["label" := Null])];
    var t := Table("t", [key], rows);
    assert Tuple(key, rows[0]) == [Null] && Tuple(key, rows[1]) == [Null];
    assert rows[0].owner == 1 && 1 in Doomed(rows, key, 1, 2);
    DoomedClashesIffNoNull(rows, key, 1, 2, 1);
    assert t.keys[0].perOwner && Collides(rows, t.keys, 1, 2, 1);
    DroppedExactly(rows, t.keys, 1, 2);
    forall id | id in MoveRows(rows, 1, 2) ensures Null in Tuple(key, MoveRows(rows, 1, 2)[id]) {
      SameTuple(key, rows[id], 1);
    }
  }

  // ---------- stored paths ----------

  predicate StartsWith(s: string, prefix: string) {
    prefix <= s
  }

  /** The SQL CASE: repoint values under the old prefix, leave every other value alone. */
  function Repoint(p: string, oldPrefix: string, newPrefix: string): string {
    if StartsWith(p, oldPrefix) then newPrefix + p[|oldPrefix|..] else p
  }

  function EndsWith(s: string, suffix: string): bool {
    |s| >= |suffix| && s[|s| - |suffix|..] == suffix
  }

  predicate IsPathColumn(c: string) {
    c == "artifact_dir" || EndsWith(c, "_path")
  }

  predicate Holds(v: Value, prefix: string) {
    v.Text? && StartsWith(v.text, prefix)
  }

  predicate NeedsRewrite(row: Row, owner: UserId, oldPrefix: string) {
    row.owner == owner && exists c :: c in row.columns && IsPathColumn(c) && Holds(row.columns[c], oldPrefix)
  }

  function RewriteRow(row: Row, owner: UserId, oldPrefix: string, newPrefix: string): Row {
    if row.owner != owner then row
    else row.(columns := map c | c in row.columns ::
      if IsPathColumn(c) && row.columns[c].Text?
          then Text(Repoint(row.columns[c].text, oldPrefix, newPrefix))
          else row.columns[c])
  }

  function RewriteTable(t: Table, owner: UserId, oldPrefix: string, newPrefix: string): Table {
    t.(rows := map id | id in t.rows :: RewriteRow(t.rows[id], owner, oldPrefix, newPrefix))
  }

  /** A row no path of which sits under the old directory is left as it is. */
  lemma RewriteTouchesOnlyMatches(row: Row, owner: UserId, oldPrefix: string, newPrefix: string)
    requires !NeedsRewrite(row, owner, oldPrefix)
    ensures RewriteRow(row, owner, oldPrefix, newPrefix) == row
  {
    if row.owner == owner {
      assert RewriteRow(row, owner, oldPrefix, newPrefix).columns == row.columns;
    }
  }

  /** Prefixes of equal length and different directories: rewriting twice is rewriting once. */
  lemma RepointOnce(p: string, oldPrefix: string, newPrefix: string)
    requires |oldPrefix| == |newPrefix| && oldPrefix != newPrefix
    ensures Repoint(Repoint(p, oldPrefix, newPrefix), oldPrefix, newPrefix) == Repoint(p, oldPrefix, newPrefix)
    ensures !StartsWith(Repoint(p, oldPrefix, newPrefix), oldPrefix)
  {
    var q := Repoint(p, oldPrefix, newPrefix);
    assert StartsWith(p, oldPrefix) ==> q[..|newPrefix|] == newPrefix;
  }

  // ---------- the whole merge ----------

  datatype Report = Report(kept: UserId, absorbed: Option<UserId>, moved: map<string, nat>, dropped: map<string, nat>,
                           sessionsRevoked: nat, pathsRewritten: map<string, nat>, move: Option<(string, string)>)

  datatype MergeError = NoAccount | SameAccount | InFlight

  ghost predicate UsernamesUnique(users: map<UserId, string>) {
    forall a, b :: a in users && b in users && users[a] == users[b] ==> a == b
  }

  predicate IsTerminal(status: Value) {
    status in {Text("completed"), Text("archived"), Text("failed"), Text("canceled")}
  }

  /** A task of one of these owners that a worker may still be writing for. */
  predicate AnyInFlight(tables: seq<Table>, owners: set<UserId>) {
    exists i :: 0 <= i < |tables| && tables[i].name == "tasks" && TaskInFlight(tables[i].rows, owners)
  }

  predicate TaskInFlight(rows: map<RowId, Row>, owners: set<UserId>) {
    exists id :: id in rows && rows[id].owner in owners && !IsTerminal(Column(rows[id], "status"))
  }

  function DirectoryPrefix(root: string, dir: string): string {
    root + "/" + dir + "/"
  }

  function MergedTables(tables: seq<Table>, keep: UserId, absorb: Option<UserId>): seq<Table> {
    if absorb.None? then tables
    else seq(|tables|, i requires 0 <= i < |tables| => MergeTable(tables[i], keep, absorb.value))
  }

  function RewrittenTables(tables: seq<Table>, owner: UserId, oldPrefix: string, newPrefix: string): seq<Table> {
    seq(|tables|, i requires 0 <= i < |tables| => RewriteTable(tables[i], owner, oldPrefix, newPrefix))
  }

  function RowsToRewrite(t: Table, owner: UserId, oldPrefix: string): set<RowId> {
    set id | id in t.rows && NeedsRewrite(t.rows[id], owner, oldPrefix)
  }

  /** The report names the first `n` tables whose count is not zero, with that count, and no other table. */
  ghost predicate Reports(report: map<string, nat>, tables: seq<Table>, n: nat, keep: UserId, absorb: UserId, fate: Fate)
    requires n <= |tables|
  {
    && (forall name :: name in report ==> report[name] > 0 && exists i :: 0 <= i < n && tables[i].name == name)
    && (forall i :: 0 <= i < n ==>
          if CountOf(tables[i], keep, absorb, fate) > 0
          then tables[i].name in report && report[tables[i].name] == CountOf(tables[i], keep, absorb, fate)
          else tables[i].name !in report)
  }

  lemma ReportStep(report: map<string, nat>, tables: seq<Table>, n: nat, keep: UserId, absorb: UserId, fate: Fate)
    requires NamesDistinct(tables) && n < |tables| && Reports(report, tables, n, keep, absorb, fate)
    ensures var k := CountOf(tables[n], keep, absorb, fate);
            Reports(if k > 0 then report[tables[n].name := k] else report, tables, n + 1, keep, absorb, fate)
  {
    hide CountOf;
    var k := CountOf(tables[n], keep, absorb, fate);
    var next := if k > 0 then report[tables[n].name := k] else report;
    forall name | name in next ensures next[name] > 0 && exists i :: 0 <= i < n + 1 && tables[i].name == name {
      if name in report {
        var i :| 0 <= i < n && tables[i].name == name;
      }
    }
  }

  ghost predicate NamesDistinct(tables: seq<Table>) {
    forall i, j :: 0 <= i < j < |tables| ==> tables[i].name != tables[j].name
  }

  method AbsorbTable(t: Table, keep: UserId, absorb: UserId) returns (merged: Table, moved: nat, dropped: nat)
    requires keep != absorb
    ensures merged == MergeTable(t, keep, absorb) && merged.name == t.name
    ensures moved == CountOf(t, keep, absorb, Moved) && dropped == CountOf(t, keep, absorb, Dropped)
  {
    hide CountOf, DropColliding, MoveRows;
    var rows;
    rows, dropped := DropCollidingRows(t, keep, absorb);
    moved := |OwnedBy(rows, absorb)|;
    MergeCountsAddUp(t, keep, absorb);
    merged := t.(rows := MoveRows(rows, keep, absorb));
  }

  function Owners(keep: UserId, absorb: Option<UserId>): set<UserId> {
    {keep} + (if absorb.Some? then {absorb.value} else {})
  }

  function MoveOf(root: Option<string>, oldDir: string, newDir: string): Option<(string, string)> {
    if root.None? then None else Some((root.value + "/" + oldDir, root.value + "/" + newDir))
  }

  /** The directory of the old address is to become that of the new one, both under the root. */
  ghost predicate Renames(move: Option<(string, string)>, root: string, oldDir: string, newDir: string) {
    && move.Some? && move.value.0 == root + "/" + oldDir && move.value.1 == root + "/" + newDir
    && move.value.0 + "/" == DirectoryPrefix(root, oldDir) && move.value.1 + "/" == DirectoryPrefix(root, newDir)
  }

  lemma MoveRenames(root: Option<string>, oldDir: string, newDir: string)
    ensures root.None? ==> MoveOf(root, oldDir, newDir).None?
    ensures root.Some? ==> Renames(MoveOf(root, oldDir, newDir), root.value, oldDir, newDir)
  {
  }

  /** The kept account held the old address; the absorbed one, if any, held the new one. */
  ghost predicate AccountsChosen(users: map<UserId, string>, oldUsername: string, newUsername: string, report: Report) {
    && report.kept in users && users[report.kept] == oldUsername
    && (match report.absorbed
        case Some(a) => a in users && a != report.kept && users[a] == newUsername
        case None => forall u :: u in users ==> users[u] != newUsername)
  }

  ghost function UsersAfter(users: map<UserId, string>, report: Report, newUsername: string): map<UserId, string> {
    var left := if report.absorbed.Some? then users - {report.absorbed.value} else users;
    left[report.kept := newUsername]
  }

  ghost function SessionsAfter(sessions: map<nat, UserId>, report: Report): map<nat, UserId> {
    SessionsOutside(sessions, Owners(report.kept, report.absorbed))
  }

  function SessionsOutside(sessions: map<nat, UserId>, owners: set<UserId>): map<nat, UserId> {
    map s | s in sessions && sessions[s] !in owners :: sessions[s]
  }

  /** Exactly the sessions of the two accounts are over. */
  ghost predicate SessionsOver(before: map<nat, UserId>, after: map<nat, UserId>, report: Report) {
    && after.Keys <= before.Keys
    && forall s :: s in before ==>
         if before[s] == report.kept || Some(before[s]) == report.absorbed then s !in after
         else s in after && after[s] == before[s]
  }

  lemma SessionsKept(before: map<nat, UserId>, report: Report)
    ensures SessionsOver(before, SessionsAfter(before, report), report)
  {
  }

  ghost function TablesAfter(tables: seq<Table>, report: Report, root: Option<string>, oldDir: string,
                             newDir: string): seq<Table> {
    var merged := MergedTables(tables, report.kept, report.absorbed);
    if root.None? then merged
    else RewrittenTables(merged, report.kept, DirectoryPrefix(root.value, oldDir), DirectoryPrefix(root.value, newDir))
  }

  /** Taking over the freed address leaves every address with one account. */
  lemma RenameKeepsNamesUnique(users: map<UserId, string>, oldUsername: string, newUsername: string, report: Report)
    requires UsernamesUnique(users) && AccountsChosen(users, oldUsername, newUsername, report)
    ensures UsernamesUnique(UsersAfter(users, report, newUsername))
  {
  }

  /** The report names the tables with a row to rewrite, each with how many, and no other table. */
  ghost predicate CountsRewrites(report: map<string, nat>, tables: seq<Table>, owner: UserId, oldPrefix: string) {
    && (forall name :: name in report ==> report[name] > 0 && exists i :: 0 <= i < |tables| && tables[i].name == name)
    && (forall i :: 0 <= i < |tables| ==>
          var n := |RowsToRewrite(tables[i], owner, oldPrefix)|;
          if n > 0 then tables[i].name in report && report[tables[i].name] == n else tables[i].name !in report)
  }

  /** Some row of the table of tasks belongs to an account of one of these names and has not come to an end. */
  ghost predicate TaskOpen(users: map<UserId, string>, tables: seq<Table>, names: set<string>) {
    exists i, id :: 0 <= i < |tables| && tables[i].name == "tasks" && id in tables[i].rows
                    && tables[i].rows[id].owner in users && users[tables[i].rows[id].owner] in names
                    && Column(tables[i].rows[id], "status")
                       !in {Text("completed"), Text("archived"), Text("failed"), Text("canceled")}
  }

  lemma InFlightMeans(users: map<UserId, string>, tables: seq<Table>, names: set<string>, owners: set<UserId>)
    requires forall u :: u in owners <==> u in users && users[u] in names
    ensures AnyInFlight(tables, owners) <==> TaskOpen(users, tables, names)
  {
    hide Column;
    if AnyInFlight(tables, owners) {
      var i :| 0 <= i < |tables| && tables[i].name == "tasks" && TaskInFlight(tables[i].rows, owners);
      var id :| id in tables[i].rows && tables[i].rows[id].owner in owners
                && !IsTerminal(Column(tables[i].rows[id], "status"));
    }
    if TaskOpen(users, tables, names) {
      var i, id :| 0 <= i < |tables| && tables[i].name == "tasks" && id in tables[i].rows
                   && tables[i].rows[id].owner in users && users[tables[i].rows[id].owner] in names
                   && Column(tables[i].rows[id], "status")
                      !in {Text("completed"), Text("archived"), Text("failed"), Text("canceled")};
      assert TaskInFlight(tables[i].rows, owners);
    }
  }

  /** The accounts that hold the two addresses are the ones chosen. */
  lemma OwnersAreNamed(users: map<UserId, string>, keep: UserId, absorb: Option<UserId>,
                      oldUsername: string, newUsername: string)
    requires UsernamesUnique(users) && keep in users && users[keep] == oldUsername
    requires match absorb case Some(a) => a in users && users[a] == newUsername
                          case None => forall u :: u in users ==> users[u] != newUsername
    ensures forall u :: u in Owners(keep, absorb) <==> u in users && users[u] in {oldUsername, newUsername}
  {
  }

  class AccountStore {
    var users: map<UserId, string>
    var sessions: map<nat, UserId>
    var tables: seq<Table>

    method FindUser(username: string) returns (id: Option<UserId>)
      ensures id.Some? ==> id.value in users && users[id.value] == username
      ensures id.None? ==> forall u :: u in users ==> users[u] != username
    {
      if u :| u in users && users[u] == username {
        id := Some(u);
      } else {
        id := None;
      }
    }

    /** Drop and move, table by table; the counters go into the report. */
    method AbsorbTables(keep: UserId, absorb: UserId) returns (moved: map<string, nat>, dropped: map<string, nat>)
      requires keep != absorb && NamesDistinct(tables)
      modifies this`tables
      ensures tables == MergedTables(old(tables), keep, Some(absorb))
      ensures Reports(moved, old(tables), |old(tables)|, keep, absorb, Moved)
      ensures Reports(dropped, old(tables), |old(tables)|, keep, absorb, Dropped)
    {
      hide MergeTable, OwnedBy, Reports, CountOf, DropColliding, MoveRows, MergedUpTo, MergedTables, NamesDistinct;
      ghost var before := tables;
      moved, dropped := map[], map[];
      NothingReported(tables, keep, absorb, Moved);
      NothingReported(tables, keep, absorb, Dropped);
      MergedNone(tables, keep, absorb);
      for i := 0 to |tables|
        invariant |tables| == |before|
        invariant MergedUpTo(before, tables, i, keep, absorb)
        invariant Reports(moved, before, i, keep, absorb, Moved) && Reports(dropped, before, i, keep, absorb, Dropped)
      {
        ghost var now := tables;
        MergedStep(before, now, i, keep, absorb);
        var t, going, gone := AbsorbTable(tables[i], keep, absorb);
        ReportStep(moved, before, i, keep, absorb, Moved);
        ReportStep(dropped, before, i, keep, absorb, Dropped);
        if gone > 0 {
          dropped := dropped[t.name := gone];
        }
        if going > 0 {
          moved := moved[t.name := going];
        }
        tables := tables[i := t];
      }
      MergedAll(before, tables, keep, absorb);
    }

    /** Who survives and who is absorbed, or why the merge is refused. */
    method ChooseAccounts(oldUsername: string, newUsername: string, artifactsRoot: Option<string>)
      returns (r: Result<(UserId, Option<UserId>), MergeError>)
      requires UsernamesUnique(users)
      ensures r.Failure? && r.error == NoAccount <==> forall u :: u in users ==> users[u] != oldUsername
      ensures r.Failure? && r.error == SameAccount
          <==> oldUsername == newUsername && exists u :: u in users && users[u] == oldUsername
      ensures r == Failure(InFlight) <==>
        && (exists u :: u in users && users[u] == oldUsername) && oldUsername != newUsername
        && artifactsRoot.Some? && TaskOpen(users, tables, {oldUsername, newUsername})
      ensures r.Success? ==>
        && r.value.0 in users && users[r.value.0] == oldUsername
        && (r.value.1.Some? ==> r.value.1.value in users && users[r.value.1.value] == newUsername && r.value.1.value != r.value.0)
        && (r.value.1.None? ==> forall u :: u in users ==> users[u] != newUsername)
    {
      hide AnyInFlight;
      var keeper := FindUser(oldUsername);
      if keeper.None? {
        return Failure(NoAccount);
      }
      var absorbed := FindUser(newUsername);
      if absorbed.Some? && absorbed.value == keeper.value {
        return Failure(SameAccount);
      }
      OwnersAreNamed(users, keeper.value, absorbed, oldUsername, newUsername);
      InFlightMeans(users, tables, {oldUsername, newUsername}, Owners(keeper.value, absorbed));
      if artifactsRoot.Some? && AnyInFlight(tables, Owners(keeper.value, absorbed)) {
        return Failure(InFlight);
      }
      r := Success((keeper.value, absorbed));
    }

    /** Sessions of both accounts end: they carry addresses that no longer mean the same account. */
    method RevokeSessions(owners: set<UserId>) returns (revoked: nat)
      modifies this`sessions
      ensures sessions == SessionsOutside(old(sessions), owners)
      ensures revoked == |old(sessions).Keys - sessions.Keys|
    {
      var doomed := set s | s in sessions && sessions[s] in owners;
      var left := SessionsOutside(sessions, owners);
      assert sessions.Keys - left.Keys == doomed;
      sessions := left;
      revoked := |doomed|;
    }

    method MergeAccounts(oldUsername: string, newUsername: string, artifactsRoot: Option<string>, hash: string -> string)
      returns (r: Result<Report, MergeError>)
      requires UsernamesUnique(users) && NamesDistinct(tables)
      modifies this
      ensures r.Failure? ==> users == old(users) && sessions == old(sessions) && tables == old(tables)
      ensures r == Failure(NoAccount) <==> forall u :: u in old(users) ==> old(users)[u] != oldUsername
      ensures r == Failure(SameAccount)
          <==> oldUsername == newUsername && exists u :: u in old(users) && old(users)[u] == oldUsername
      ensures r == Failure(InFlight) <==>
        && (exists u :: u in old(users) && old(users)[u] == oldUsername) && oldUsername != newUsername
        && artifactsRoot.Some? && TaskOpen(old(users), old(tables), {oldUsername, newUsername})
      ensures r.Success? ==> AccountsChosen(old(users), oldUsername, newUsername, r.value)
      ensures r.Success? ==> UsernamesUnique(users) && users == UsersAfter(old(users), r.value, newUsername)
      ensures r.Success? ==> SessionsOver(old(sessions), sessions, r.value)
      ensures r.Success? ==> sessions == SessionsAfter(old(sessions), r.value)
                             && r.value.sessionsRevoked == |old(sessions).Keys - sessions.Keys|
      ensures r.Success? ==> tables == TablesAfter(old(tables), r.value, artifactsRoot, hash(oldUsername), hash(newUsername))
      ensures r.Success? && r.value.absorbed.Some? ==>
        && Reports(r.value.moved, old(tables), |old(tables)|, r.value.kept, r.value.absorbed.value, Moved)
        && Reports(r.value.dropped, old(tables), |old(tables)|, r.value.kept, r.value.absorbed.value, Dropped)
      ensures r.Success? && r.value.absorbed.None? ==> r.value.moved == map[] && r.value.dropped == map[]
      ensures r.Success? && artifactsRoot.None? ==> r.value.pathsRewritten == map[] && r.value.move.None?
      ensures r.Success? && artifactsRoot.Some? ==>
        && CountsRewrites(r.value.pathsRewritten, MergedTables(old(tables), r.value.kept, r.value.absorbed), r.value.kept,
                          DirectoryPrefix(artifactsRoot.value, hash(oldUsername)))
        && Renames(r.value.move, artifactsRoot.value, hash(oldUsername), hash(newUsername))
    {
      hide SessionsOutside, AnyInFlight, Renames, MergedTables, RewrittenTables, Reports, DirectoryPrefix,
          NamesDistinct, CountsRewrites, UsernamesUnique, TaskOpen, SessionsOver, MoveOf;
      var chosen := ChooseAccounts(oldUsername, newUsername, artifactsRoot);
      if chosen.Failure? {
        return Failure(chosen.error);
      }
      var keep, absorbed := chosen.value.0, chosen.value.1;
      var revoked := RevokeSessions(Owners(keep, absorbed));
      var moved: map<string, nat>, dropped: map<string, nat> := map[], map[];
      MergeKeepsNames(tables, keep, absorbed);
      if absorbed.Some? {
        moved, dropped := AbsorbTables(keep, absorbed.value);
        users := users - {absorbed.value};
      }
      var rewritten: map<string, nat> := map[];
      if artifactsRoot.Some? {
        var root := artifactsRoot.value;
        rewritten := RewriteArtifactPaths(keep, DirectoryPrefix(root, hash(oldUsername)),
            DirectoryPrefix(root, hash(newUsername)));
      }
      users := users[keep := newUsername];
      r := Success(Report(keep, absorbed, moved, dropped, revoked, rewritten,
                          MoveOf(artifactsRoot, hash(oldUsername), hash(newUsername))));
      RenameKeepsNamesUnique(old(users), oldUsername, newUsername, r.value);
      SessionsKept(old(sessions), r.value);
      MoveRenames(artifactsRoot, hash(oldUsername), hash(newUsername));
    }

    method RewriteArtifactPaths(owner: UserId, oldPrefix: string, newPrefix: string) returns (rewritten: map<string, nat>)
      requires NamesDistinct(tables)
      modifies this`tables
      ensures tables == RewrittenTables(old(tables), owner, oldPrefix, newPrefix)
      ensures CountsRewrites(rewritten, old(tables), owner, oldPrefix)
    {
      hide RewriteTable, RowsToRewrite;
      ghost var before := tables;
      rewritten := map[];
      for i := 0 to |tables|
        invariant |tables| == |before|
        invariant forall k :: 0 <= k < i ==> tables[k] == RewriteTable(before[k], owner, oldPrefix, newPrefix)
        invariant forall k :: i <= k < |tables| ==> tables[k] == before[k] && before[k].name !in rewritten
        invariant forall k :: 0 <= k < i ==>
          var n := |RowsToRewrite(before[k], owner, oldPrefix)|;
          if n > 0 then before[k].name in rewritten && rewritten[before[k].name] == n else before[k].name !in rewritten
        invariant forall name :: name in rewritten ==>
          rewritten[name] > 0 && exists k :: 0 <= k < |before| && before[k].name == name
      {
        var n := |RowsToRewrite(tables[i], owner, oldPrefix)|;
        if n > 0 {
          rewritten := rewritten[tables[i].name := n];
        }
        tables := tables[i := RewriteTable(tables[i], owner, oldPrefix, newPrefix)];
      }
    }
  }

  ghost predicate MergedUpTo(before: seq<Table>, now: seq<Table>, i: nat, keep: UserId, absorb: UserId) {
    && |now| == |before| && i <= |before|
    && (forall k :: 0 <= k < i ==> now[k] == MergeTable(before[k], keep, absorb))
    && (forall k :: i <= k < |now| ==> now[k] == before[k])
  }

  lemma MergedNone(tables: seq<Table>, keep: UserId, absorb: UserId)
    ensures MergedUpTo(tables, tables, 0, keep, absorb)
  {
  }

  lemma MergedStep(before: seq<Table>, now: seq<Table>, i: nat, keep: UserId, absorb: UserId)
    requires MergedUpTo(before, now, i, keep, absorb) && i < |now|
    ensures |now| == |before| && now[i] == before[i]
    ensures MergedUpTo(before, now[i := MergeTable(before[i], keep, absorb)], i + 1, keep, absorb)
  {
    hide MergeTable;
  }

  lemma MergedAll(before: seq<Table>, now: seq<Table>, keep: UserId, absorb: UserId)
    requires MergedUpTo(before, now, |now|, keep, absorb)
    ensures now == MergedTables(before, keep, Some(absorb))
  {
    hide MergeTable;
  }

  lemma NothingReported(tables: seq<Table>, keep: UserId, absorb: UserId, fate: Fate)
    ensures Reports(map[], tables, 0, keep, absorb, fate)
  {
  }

  lemma MergeKeepsNames(tables: seq<Table>, keep: UserId, absorb: Option<UserId>)
    requires NamesDistinct(tables)
    ensures NamesDistinct(MergedTables(tables, keep, absorb)) && MergedTables(tables, keep, None) == tables
  {
  }

  /** No unique key runs over a column that holds stored paths. */
  ghost predicate KeysSparePaths(t: Table) {
    forall key, c :: key in t.keys && c in key.columns ==> !IsPathColumn(c)
  }

  lemma RewriteKeepsTuple(key: Key, row: Row, owner: UserId, oldPrefix: string, newPrefix: string)
    requires forall c :: c in key.columns ==> !IsPathColumn(c)
    ensures var after := RewriteRow(row, owner, oldPrefix, newPrefix);
            && after.owner == row.owner && Tuple(key, after) == Tuple(key, row) && Covers(key, after) == Covers(key, row)
  {
    hide IsPathColumn;
    var after := RewriteRow(row, owner, oldPrefix, newPrefix);
    forall i | 0 <= i < |key.columns| ensures Tuple(key, after)[i] == Tuple(key, row)[i] {
      assert key.columns[i] in key.columns;
    }
  }

  /** Rewriting paths moves no row to another owner and, where keys spare path columns, breaks no key. */
  lemma RewriteKeepsKeysUnique(t: Table, owner: UserId, oldPrefix: string, newPrefix: string)
    requires Sound(t) && KeysSparePaths(t)
    ensures Sound(RewriteTable(t, owner, oldPrefix, newPrefix))
    ensures forall u :: OwnedBy(RewriteTable(t, owner, oldPrefix, newPrefix).rows, u) == OwnedBy(t.rows, u)
  {
    hide Tuple, Covers, RewriteRow, IsPathColumn;
    var after := RewriteTable(t, owner, oldPrefix, newPrefix).rows;
    var none := Key(false, [], None);
    forall id | id in t.rows ensures after[id].owner == t.rows[id].owner {
      RewriteKeepsTuple(none, t.rows[id], owner, oldPrefix, newPrefix);
    }
    forall key, i, j | key in t.keys && i in after && j in after && i != j ensures !Clash(key, after[i], after[j]) {
      RewriteKeepsTuple(key, t.rows[i], owner, oldPrefix, newPrefix);
      RewriteKeepsTuple(key, t.rows[j], owner, oldPrefix, newPrefix);
      assert !Clash(key, t.rows[i], t.rows[j]);
    }
  }

  /**
   After the whole merge, paths rewritten or not, every unique key of every table
   holds and no row is left on the absorbed account.
   */
  lemma NothingLeftBehind(tables: seq<Table>, report: Report, root: Option<string>, oldDir: string, newDir: string)
    requires report.absorbed != Some(report.kept) && forall t :: t in tables ==> Sound(t) && KeysSparePaths(t)
    ensures forall t :: t in TablesAfter(tables, report, root, oldDir, newDir) ==>
              Sound(t) && (report.absorbed.Some? ==> OwnedBy(t.rows, report.absorbed.value) == {})
  {
    hide Sound, MergeTable, RewriteTable, KeysSparePaths, OwnedBy;
    var after := TablesAfter(tables, report, root, oldDir, newDir);
    forall i | 0 <= i < |after|
      ensures Sound(after[i]) && (report.absorbed.Some? ==> OwnedBy(after[i].rows, report.absorbed.value) == {})
    {
      assert tables[i] in tables;
      var merged := MergedTables(tables, report.kept, report.absorbed)[i];
      MergedTableIsSound(tables[i], report.kept, report.absorbed);
      if root.Some? {
        RewriteKeepsKeysUnique(merged, report.kept, DirectoryPrefix(root.value, oldDir), DirectoryPrefix(root.value, newDir));
      }
    }
  }

  lemma MergedTableIsSound(t: Table, keep: UserId, absorb: Option<UserId>)
    requires absorb != Some(keep) && Sound(t) && KeysSparePaths(t)
    ensures var merged := if absorb.None? then t else MergeTable(t, keep, absorb.value);
            Sound(merged) && KeysSparePaths(merged) && (absorb.Some? ==> OwnedBy(merged.rows, absorb.value) == {})
  {
    if absorb.Some? {
      MergeKeepsKeysUnique(t, keep, absorb.value);
      MergeAccountsForEveryRow(t, keep, absorb.value);
    }
  }

  /** The keys over the owner that the schema declares: a name per user, one row per user, one system row per user. */
  const PER_USER_KEYS := {Key(true, ["name"], None), Key(true, [], None), Key(true, [], Some("is_system"))}

  /** Under these keys, with names always present, nothing is dropped for a NULL and no rewrite breaks a key. */
  lemma DeclaredKeysAreHarmless(t: Table, absorb: UserId)
    requires forall key :: key in t.keys ==> key in PER_USER_KEYS
    requires Key(true, ["name"], None) in t.keys ==> forall id :: id in t.rows ==> Column(t.rows[id], "name") != Null
    ensures KeysFilled(t, absorb) && KeysSparePaths(t)
  {
    forall key, id | key in t.keys && key.perOwner && id in OwnedBy(t.rows, absorb) ensures Null !in Tuple(key, t.rows[id]) {
      if key.columns == ["name"] {
        assert Tuple(key, t.rows[id]) == [Column(t.rows[id], "name")];
      }
    }
    assert !IsPathColumn("name");
  }

  /** Two rows of two accounts, each with one path of its own directory, under a key over that path. */
  function PathKeyed(): Table {
    Table("t", [Key(true, ["artifact_dir"], None)],
          map[0 := Row(1, map["artifact_dir" := Text("o/x")]), 1 := Row(2, map["artifact_dir" := Text("n/x")])])
  }

  lemma PathKeyedMerges()
    ensures Sound(PathKeyed()) && Sound(MergeTable(PathKeyed(), 1, 2))
    ensures MergeTable(PathKeyed(), 1, 2).keys == PathKeyed().keys && MergeTable(PathKeyed(), 1, 2).rows.Keys == {0, 1}
    ensures MergeTable(PathKeyed(), 1, 2).rows[0] == PathKeyed().rows[0]
    ensures MergeTable(PathKeyed(), 1, 2).rows[1] == PathKeyed().rows[1].(owner := 1)
  {
    var t := PathKeyed();
    var key := t.keys[0];
    assert Tuple(key, t.rows[0])[0] != Tuple(key, t.rows[1])[0] by {
      assert "o/x"[0] != "n/x"[0];
    }
    hide Tuple, Covers;
    assert Sound(t);
    MergeKeepsKeysUnique(t, 1, 2);
    assert forall id :: id in t.rows ==> id !in Doomed(t.rows, key, 1, 2);
    MergeAccountsForEveryRow(t, 1, 2);
  }

  /** A unique key over a path column would be broken by the rewrite: both rows come to the same path. */
  lemma KeyOverPathsBreaks()
    ensures Sound(PathKeyed()) && Sound(MergeTable(PathKeyed(), 1, 2))
    ensures !Sound(RewriteTable(MergeTable(PathKeyed(), 1, 2), 1, "o/", "n/"))
  {
    PathKeyedMerges();
    hide MergeTable;
    var key := PathKeyed().keys[0];
    var after := RewriteTable(MergeTable(PathKeyed(), 1, 2), 1, "o/", "n/").rows;
    assert Repoint("o/x", "o/", "n/") == "n/x" && Repoint("n/x", "o/", "n/") == "n/x";
    assert Tuple(key, after[0]) == [Text("n/x")] && Tuple(key, after[1]) == [Text("n/x")];
    assert 0 in after && 1 in after && Clash(key, after[0], after[1]);
    assert key in PathKeyed().keys;
  }
}
