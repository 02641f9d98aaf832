/** repair.DB: reconciling a sanitized database with the pristine schema. */
module Repair {
  import opened Text
  import opened Store

  datatype Kind = Table | IndexKind | View | Trigger

  /** One row of sqlite_master: table is the table (or view) an index or trigger
      is on; ddl is None where sqlite_master holds NULL. */
  datatype SqlObject = SqlObject(name: string, kind: Kind, table: string, ddl: Option<string>)

  type Schema = map<string, SqlObject>

  class Database {
    var objects: Schema
    var version: int
    /** Statements that the schema allows never fail, and no iteration is cut short. */
    const reliable: bool

    ghost predicate Valid()
      reads this
    {
      NamesMatch(objects)
    }

    constructor (objects: Schema, version: int, reliable: bool)
      requires NamesMatch(objects)
      ensures Valid() && this.objects == objects && this.version == version && this.reliable == reliable
    {
      this.objects, this.version, this.reliable := objects, version, reliable;
    }
  }

  ghost predicate NamesMatch(s: Schema) {
    forall n :: n in s ==> s[n].name == n
  }

  function LowerLetter(c: char): char {
    if 'A' <= c <= 'Z' then c - 'A' + 'a' else c
  }

  /** name LIKE 'sqlite_%': without regard to case, and "_" stands for any one
      character. */
  predicate LikeSqlite(name: string) {
    && |name| >= 7
    && forall i :: 0 <= i < 6 ==> LowerLetter(name[i]) == "sqlite"[i]
  }

  /** At least seven characters, the first six spelling sqlite in any letter case. */
  predicate ReservedName(n: string) {
    && |n| >= 7
    && (n[0] == 's' || n[0] == 'S') && (n[1] == 'q' || n[1] == 'Q') && (n[2] == 'l' || n[2] == 'L')
    && (n[3] == 'i' || n[3] == 'I') && (n[4] == 't' || n[4] == 'T') && (n[5] == 'e' || n[5] == 'E')
  }

  lemma LikeSqliteIsReserved(n: string)
    ensures LikeSqlite(n) <==> ReservedName(n)
  {
    if |n| >= 7 {
      assert LowerLetter(n[0]) == 's' <==> n[0] == 's' || n[0] == 'S';
      assert LowerLetter(n[1]) == 'q' <==> n[1] == 'q' || n[1] == 'Q';
      assert LowerLetter(n[2]) == 'l' <==> n[2] == 'l' || n[2] == 'L';
      assert LowerLetter(n[3]) == 'i' <==> n[3] == 'i' || n[3] == 'I';
      assert LowerLetter(n[4]) == 't' <==> n[4] == 't' || n[4] == 'T';
      assert LowerLetter(n[5]) == 'e' <==> n[5] == 'e' || n[5] == 'E';
    }
  }

  /** The filter of the query over the pristine schema. */
  predicate Wanted(o: SqlObject) {
    o.ddl.Some? && !LikeSqlite(o.name)
  }

  /** Tables first, then indexes, then everything else. */
  function Rank(k: Kind): char {
    match k
    case Table => '0'
    case IndexKind => '1'
    case View => '2'
    case Trigger => '2'
  }

  function SortKey(o: SqlObject): string {
    [Rank(o.kind)] + o.name
  }

  /** The rows the query over the pristine schema returns, in its ORDER BY order. */
  ghost predicate WantedRows(rows: seq<SqlObject>, pristine: Schema) {
    && (forall o: SqlObject :: o in rows <==> o.name in pristine && pristine[o.name] == o && Wanted(o))
    && InOrder(rows)
  }

  ghost predicate InOrder(rows: seq<SqlObject>) {
    forall i, j :: 0 <= i < j < |rows| ==> Less(SortKey(rows[i]), SortKey(rows[j]))
  }

  /** Tables before indexes before views and triggers, and by name among equals. */
  predicate ComesBefore(o: SqlObject, p: SqlObject) {
    || (o.kind.Table? && !p.kind.Table?)
    || (o.kind.IndexKind? && (p.kind.View? || p.kind.Trigger?))
    || ((o.kind == p.kind || (!o.kind.Table? && !o.kind.IndexKind? && !p.kind.Table? && !p.kind.IndexKind?))
        && Less(o.name, p.name))
  }

  lemma SortKeyOrder(o: SqlObject, p: SqlObject)
    ensures Less(SortKey(o), SortKey(p)) <==> ComesBefore(o, p)
  {
    var x, y := SortKey(o), SortKey(p);
    assert x[0] == Rank(o.kind) && y[0] == Rank(p.kind) && x[1..] == o.name && y[1..] == p.name;
  }

  method QueryWanted(pristine: Database) returns (rows: seq<SqlObject>)
    requires pristine.Valid()
    ensures WantedRows(rows, pristine.objects)
  {
    var objects := pristine.objects;
    var sorted := SortSet(set n | n in objects && Wanted(objects[n]) :: SortKey(objects[n]));
    RowKeys(objects, sorted);
    rows := seq(|sorted|, i requires 0 <= i < |sorted| => objects[sorted[i][1..]]);
    RowsOfKeys(objects, sorted, rows);
  }

  ghost predicate KeysOfWanted(objects: Schema, sorted: seq<string>) {
    Elements(sorted) == set n | n in objects && Wanted(objects[n]) :: SortKey(objects[n])
  }

  lemma RowKeys(objects: Schema, sorted: seq<string>)
    requires NamesMatch(objects) && KeysOfWanted(objects, sorted)
    ensures forall i :: 0 <= i < |sorted| ==>
              && |sorted[i]| > 0 && sorted[i][1..] in objects
              && Wanted(objects[sorted[i][1..]]) && SortKey(objects[sorted[i][1..]]) == sorted[i]
  {
    forall i | 0 <= i < |sorted|
      ensures |sorted[i]| > 0 && sorted[i][1..] in objects
              && Wanted(objects[sorted[i][1..]]) && SortKey(objects[sorted[i][1..]]) == sorted[i]
    {
      assert sorted[i] in Elements(sorted);
      var n :| n in objects && Wanted(objects[n]) && SortKey(objects[n]) == sorted[i];
      assert sorted[i][1..] == n;
    }
  }

  lemma RowsOfKeys(objects: Schema, sorted: seq<string>, rows: seq<SqlObject>)
    requires NamesMatch(objects) && Ascending(sorted) && KeysOfWanted(objects, sorted)
    requires |rows| == |sorted|
    requires forall i :: 0 <= i < |rows| ==>
               && |sorted[i]| > 0 && sorted[i][1..] in objects && rows[i] == objects[sorted[i][1..]]
               && Wanted(rows[i]) && SortKey(rows[i]) == sorted[i]
    ensures WantedRows(rows, objects)
  {
    forall o: SqlObject | o.name in objects && objects[o.name] == o && Wanted(o) ensures o in rows {
      assert SortKey(o) in Elements(sorted);
      var i :| 0 <= i < |sorted| && sorted[i] == SortKey(o);
      assert sorted[i][1..] == o.name && rows[i] == o;
    }
  }

  // ---- the difference and its creation ------------------------------------

  /** The rows whose names do not exist yet, in the order of the rows. */
  function Missing(rows: seq<SqlObject>, have: set<string>): seq<SqlObject> {
    if rows == [] then []
    else
      var rest := Missing(rows[1..], have);
      if rows[0].name in have then rest else [rows[0]] + rest
  }

  lemma {:induction false} MissingMember(rows: seq<SqlObject>, have: set<string>, o: SqlObject)
    ensures o in Missing(rows, have) <==> o in rows && o.name !in have
  {
    if rows != [] {
      assert o in rows <==> o == rows[0] || o in rows[1..];
      MissingMember(rows[1..], have, o);
    }
  }

  lemma MissingMembers(rows: seq<SqlObject>, have: set<string>)
    ensures forall o :: o in Missing(rows, have) <==> o in rows && o.name !in have
  {
    forall o ensures o in Missing(rows, have) <==> o in rows && o.name !in have {
      MissingMember(rows, have, o);
    }
  }

  /** What SQLite demands of CREATE: a new name, and for an index or trigger that
      the table it is on exists. */
  predicate Creatable(s: Schema, o: SqlObject) {
    o.name !in s && (o.kind.IndexKind? || o.kind.Trigger? ==> o.table in s)
  }

  function Create(s: Schema, o: SqlObject): Schema {
    s[o.name := o]
  }

  /** Creating the objects in order; None when some CREATE is refused. */
  function CreateAll(s: Schema, todo: seq<SqlObject>): Option<Schema>
    decreases |todo|
  {
    if todo == [] then Some(s)
    else if Creatable(s, todo[0]) then CreateAll(Create(s, todo[0]), todo[1..]) else None
  }

  function Names(os: seq<SqlObject>): seq<string> {
    seq(|os|, i requires 0 <= i < |os| => os[i].name)
  }

  datatype Result = Repaired(created: seq<string>) | Failed

  /** repair.DB.

      Any step may fail, and then the target is as before.  On success the
      created objects are exactly the missing ones among the rows that were read
      (a prefix: the loop over the rows does not look at the iteration's error),
      everything that existed is unchanged, and the version is raised only when
      something was created.  On databases that do not fail by themselves all
      rows are read, and the repair succeeds exactly when the creation of the
      missing objects does.

      In plain words: nothing that existed changes; what is new is pristine, has a
      definition and no reserved name, and was created in order; and on such
      databases everything of that kind is there after a success. */
  method DB(target: Database, pristine: Database)
      returns (r: Result, ghost rows: seq<SqlObject>, ghost read: nat)
    requires target.Valid() && pristine.Valid() && target != pristine
    modifies target
    ensures target.Valid() && WantedRows(rows, pristine.objects) && read <= |rows|
    ensures r.Failed? ==> target.objects == old(target.objects) && target.version == old(target.version)
    ensures r.Repaired? ==>
              var missing := Missing(rows[..read], old(target.objects.Keys));
              && r.created == Names(missing)
              && CreateAll(old(target.objects), missing) == Some(target.objects)
              && target.version == if missing != [] && pristine.version > old(target.version)
                                   then pristine.version else old(target.version)
    ensures target.reliable && pristine.reliable ==>
              && read == |rows|
              && (r.Repaired? <==> CreateAll(old(target.objects), Missing(rows, old(target.objects.Keys))).Some?)
    ensures OnlyPristineAdded(old(target.objects), pristine.objects, target.objects)
    ensures r.Repaired? ==> IsCreated(old(target.objects), r.created, target.objects)
    ensures r.Repaired? ==>
              target.version == if r.created != [] && pristine.version > old(target.version)
                                then pristine.version else old(target.version)
    ensures r.Repaired? && target.reliable && pristine.reliable ==>
              forall n :: n in pristine.objects && pristine.objects[n].ddl.Some? && !ReservedName(n) ==>
                n in target.objects
  {
    read := 0;
    ghost var before := target.objects;
    var wanted := QueryWanted(pristine);
    rows := wanted;
    var existing := ReadNames(target);
    if existing.None? { return Failed, rows, read; }
    var ok, missing, n := Compare(wanted, existing.value, pristine.reliable);
    read := n;
    assert n == |wanted| ==> wanted[..n] == wanted;
    if !ok { return Failed, rows, read; }
    if |missing| == 0 {
      NothingMissing(wanted[..n], existing.value, before.Keys);
      RepairMeans(before, pristine.objects, rows, n, before);
      return Repaired([]), rows, read;
    }
    var work, created := Transaction(target, missing);
    if work.None? { return Failed, rows, read; }
    SameMissing(wanted[..n], existing.value, before);
    CreatedNamesMatch(before, missing);
    RepairMeans(before, pristine.objects, rows, n, work.value);
    var stampOk: bool := *;
    var commitOk: bool := *;
    if !target.reliable && (!stampOk || !commitOk) { return Failed, rows, read; }
    target.objects := work.value;
    if pristine.version > target.version {
      target.version := pristine.version;
    }
    r := Repaired(created);
  }

  /** Nothing that existed has changed, and what is new is a pristine object with a
      definition and no reserved name. */
  ghost predicate OnlyPristineAdded(before: Schema, pristine: Schema, after: Schema) {
    && (forall n :: n in before ==> n in after && after[n] == before[n])
    && (forall n :: n in after && n !in before ==>
          n in pristine && after[n] == pristine[n] && pristine[n].ddl.Some? && !ReservedName(n))
  }

  /** The created names are those that are new, tables first. */
  ghost predicate IsCreated(before: Schema, created: seq<string>, after: Schema) {
    && (forall n :: n in created <==> n in after && n !in before)
    && (forall i, j :: 0 <= i < j < |created| && created[i] in after && created[j] in after ==>
          ComesBefore(after[created[i]], after[created[j]]))
  }

  lemma RepairMeans(before: Schema, pristine: Schema, rows: seq<SqlObject>, read: nat, after: Schema)
    requires NamesMatch(pristine) && WantedRows(rows, pristine) && read <= |rows|
    requires CreateAll(before, Missing(rows[..read], before.Keys)) == Some(after)
    ensures OnlyPristineAdded(before, pristine, after)
    ensures IsCreated(before, Names(Missing(rows[..read], before.Keys)), after)
    ensures read == |rows| ==>
              forall n :: n in pristine && pristine[n].ddl.Some? && !ReservedName(n) ==> n in after
  {
    RepairFrame(before, pristine, rows, read, after);
    forall n | n in after && n !in before ensures pristine[n].ddl.Some? && !ReservedName(n) {
      LikeSqliteIsReserved(n);
    }
    CreatedAreNew(before, rows[..read], after);
    if read == |rows| {
      assert rows[..read] == rows;
      forall n | n in pristine && pristine[n].ddl.Some? && !ReservedName(n) ensures n in after {
        LikeSqliteIsReserved(n);
        assert pristine[n] in rows;
        ReadRowPresent(before, rows, after, pristine[n]);
      }
    }
  }

  lemma CreatedAreNew(before: Schema, rows: seq<SqlObject>, after: Schema)
    requires InOrder(rows) && CreateAll(before, Missing(rows, before.Keys)) == Some(after)
    ensures IsCreated(before, Names(Missing(rows, before.Keys)), after)
  {
    var todo := Missing(rows, before.Keys);
    CreatedContents(before, todo);
    MissingOrder(rows, before.Keys);
    forall n ensures n in Names(todo) <==> n in after && n !in before {
      CreatedNew(before, todo, after, n);
    }
    CreatedInOrder(todo, after);
  }

  lemma CreatedNew(before: Schema, todo: seq<SqlObject>, after: Schema, n: string)
    requires CreateAll(before, todo) == Some(after)
    ensures n in Names(todo) <==> n in after && n !in before
  {
    CreatedContents(before, todo);
    if n in Names(todo) {
      var i :| 0 <= i < |todo| && Names(todo)[i] == n;
      assert todo[i] in todo;
    }
    if n in after && n !in before {
      var o := CreatedFrom(before, todo, n);
      var i :| 0 <= i < |todo| && todo[i] == o;
      assert Names(todo)[i] == n;
    }
  }

  lemma CreatedInOrder(todo: seq<SqlObject>, after: Schema)
    requires InOrder(todo) && forall o :: o in todo ==> o.name in after && after[o.name] == o
    ensures
      var created := Names(todo);
      forall i, j :: 0 <= i < j < |created| && created[i] in after && created[j] in after ==>
        ComesBefore(after[created[i]], after[created[j]])
  {
    forall i, j | 0 <= i < j < |todo| ensures ComesBefore(after[Names(todo)[i]], after[Names(todo)[j]]) {
      assert todo[i] in todo && todo[j] in todo;
      SortKeyOrder(todo[i], todo[j]);
    }
  }

  /** The names sqlite_master delivers; an iteration cut short loses some. */
  method ReadNames(target: Database) returns (r: Option<set<string>>)
    ensures r.Some? ==> r.value <= target.objects.Keys
    ensures target.reliable ==> r == Some(target.objects.Keys)
  {
    if target.reliable { return Some(target.objects.Keys); }
    var ok: bool := *;
    var lost: set<string> := *;
    r := if ok then Some(target.objects.Keys - lost) else None;
  }

  /** The loop over the wanted rows; it may end early, or fail on a row. */
  method Compare(rows: seq<SqlObject>, existing: set<string>, reliable: bool)
      returns (ok: bool, missing: seq<SqlObject>, read: nat)
    ensures read <= |rows| && missing == Missing(rows[..read], existing)
    ensures reliable ==> ok && read == |rows|
  {
    missing, read := [], 0;
    while read < |rows|
      invariant read <= |rows|
      invariant missing == Missing(rows[..read], existing)
    {
      var more: bool := *;
      if !more && !reliable { break; }
      var scanned: bool := *;
      if !scanned && !reliable { return false, missing, read; }
      MissingAppend(rows[..read], rows[read], existing);
      assert rows[..read + 1] == rows[..read] + [rows[read]];
      if rows[read].name !in existing {
        missing := missing + [rows[read]];
      }
      read := read + 1;
    }
    ok := true;
  }

  /** The creation loop inside the transaction, on the transaction's view. */
  method Transaction(target: Database, missing: seq<SqlObject>)
      returns (work: Option<Schema>, created: seq<string>)
    ensures work.Some? ==> CreateAll(target.objects, missing) == work && created == Names(missing)
    ensures target.reliable ==> work == CreateAll(target.objects, missing)
  {
    var s := target.objects;
    created := [];
    var i := 0;
    while i < |missing|
      invariant 0 <= i <= |missing|
      invariant CreateAll(s, missing[i..]) == CreateAll(target.objects, missing)
      invariant created == Names(missing[..i])
    {
      var ok: bool := *;
      if (!ok && !target.reliable) || !Creatable(s, missing[i]) { return None, created; }
      assert missing[i..][1..] == missing[i + 1..];
      s := Create(s, missing[i]);
      created := created + [missing[i].name];
      i := i + 1;
    }
    assert missing[..i] == missing;
    work := Some(s);
  }

  lemma {:induction false} MissingAppend(rows: seq<SqlObject>, o: SqlObject, have: set<string>)
    ensures Missing(rows + [o], have) == Missing(rows, have) + if o.name in have then [] else [o]
  {
    if rows == [] {
      assert rows + [o] == [o];
    } else {
      assert (rows + [o])[1..] == rows[1..] + [o];
      MissingAppend(rows[1..], o, have);
    }
  }

  lemma {:induction false} CreatedContents(s: Schema, todo: seq<SqlObject>)
    requires CreateAll(s, todo).Some?
    ensures
      var after := CreateAll(s, todo).value;
      && (forall n :: n in s ==> n in after && after[n] == s[n])
      && (forall o :: o in todo ==> o.name !in s && o.name in after && after[o.name] == o)
    decreases |todo|
  {
    if todo != [] {
      assert forall o :: o in todo <==> o == todo[0] || o in todo[1..];
      CreatedContents(Create(s, todo[0]), todo[1..]);
    }
  }

  lemma {:induction false} CreatedFrom(s: Schema, todo: seq<SqlObject>, n: string) returns (o: SqlObject)
    requires CreateAll(s, todo).Some?
    requires n in CreateAll(s, todo).value && n !in s
    ensures o in todo && o.name == n
    decreases |todo|
  {
    if todo[0].name == n {
      o := todo[0];
    } else {
      o := CreatedFrom(Create(s, todo[0]), todo[1..], n);
    }
  }

  lemma CreatedNamesMatch(s: Schema, todo: seq<SqlObject>)
    requires NamesMatch(s) && CreateAll(s, todo).Some?
    ensures NamesMatch(CreateAll(s, todo).value)
  {
    CreatedContents(s, todo);
    forall n | n in CreateAll(s, todo).value && n !in s ensures CreateAll(s, todo).value[n].name == n {
      var o := CreatedFrom(s, todo, n);
    }
  }

  /** Names lost from the listing cannot go unnoticed when the creation succeeds. */
  lemma {:induction false} SameMissing(rows: seq<SqlObject>, existing: set<string>, before: Schema)
    requires existing <= before.Keys
    requires CreateAll(before, Missing(rows, existing)).Some?
    ensures Missing(rows, existing) == Missing(rows, before.Keys)
  {
    CreatedContents(before, Missing(rows, existing));
    MissingMembers(rows, existing);
    MissingAgree(rows, existing, before.Keys);
  }

  lemma MissingNone(rows: seq<SqlObject>, have: set<string>)
    ensures Missing(rows, have) == [] <==> forall o :: o in rows ==> o.name in have
  {
    var m := Missing(rows, have);
    MissingMembers(rows, have);
    if m != [] {
      assert m[0] in m;
    }
  }

  lemma NothingMissing(rows: seq<SqlObject>, existing: set<string>, have: set<string>)
    requires existing <= have && Missing(rows, existing) == []
    ensures Missing(rows, have) == []
  {
    MissingNone(rows, existing);
    MissingNone(rows, have);
  }

  lemma {:induction false} MissingAgree(rows: seq<SqlObject>, a: set<string>, b: set<string>)
    requires forall o :: o in rows ==> (o.name in a <==> o.name in b)
    ensures Missing(rows, a) == Missing(rows, b)
  {
    if rows != [] {
      assert rows[0] in rows;
      assert forall o :: o in rows[1..] ==> o in rows;
      MissingAgree(rows[1..], a, b);
    }
  }

  // ---- what a repair achieves ---------------------------------------------

  /** A successful repair leaves every old object as it was and adds only wanted
      objects of the pristine schema, as they are there. */
  lemma RepairFrame(before: Schema, pristine: Schema, rows: seq<SqlObject>, read: nat, after: Schema)
    requires WantedRows(rows, pristine) && read <= |rows|
    requires CreateAll(before, Missing(rows[..read], before.Keys)) == Some(after)
    ensures forall n :: n in before ==> n in after && after[n] == before[n]
    ensures forall n :: n in after && n !in before ==>
              n in pristine && after[n] == pristine[n] && Wanted(pristine[n])
  {
    var missing := Missing(rows[..read], before.Keys);
    CreatedContents(before, missing);
    forall n | n in after && n !in before
      ensures n in pristine && after[n] == pristine[n] && Wanted(pristine[n])
    {
      var o := CreatedFrom(before, missing, n);
      MissingMember(rows[..read], before.Keys, o);
      assert o in rows;
    }
  }

  /** Every wanted object is present after a successful repair exactly when none of
      the rows that were not read is still missing; in particular when all were read. */
  lemma RepairIsComplete(before: Schema, pristine: Schema, rows: seq<SqlObject>, read: nat, after: Schema)
    requires WantedRows(rows, pristine) && read <= |rows|
    requires CreateAll(before, Missing(rows[..read], before.Keys)) == Some(after)
    ensures (forall o :: o in rows ==> o.name in after) <==> Missing(rows[read..], before.Keys) == []
  {
    var unread := rows[read..];
    forall o | o in rows[..read] ensures o.name in after {
      ReadRowPresent(before, rows[..read], after, o);
    }
    forall o | o in unread ensures o.name in after <==> o.name in before {
      UnreadRowPresent(before, pristine, rows, read, after, o);
    }
    MissingNone(unread, before.Keys);
    EitherPart(rows, read);
  }

  /** When all rows were read, the repaired schema holds every wanted object as it is
      in the pristine one, so that the pristine version stamp is true of it, exactly
      when no wanted object that existed had another shape: the repair does not look. */
  lemma StampIsTruthful(before: Schema, pristine: Schema, rows: seq<SqlObject>, after: Schema)
    requires WantedRows(rows, pristine)
    requires CreateAll(before, Missing(rows, before.Keys)) == Some(after)
    ensures (forall o :: o in rows ==> o.name in after && after[o.name] == o) <==>
            (forall o :: o in rows && o.name in before ==> before[o.name] == o)
  {
    CreatedContents(before, Missing(rows, before.Keys));
    MissingMembers(rows, before.Keys);
  }

  lemma EitherPart(rows: seq<SqlObject>, read: nat)
    requires read <= |rows|
    ensures forall o :: o in rows <==> o in rows[..read] || o in rows[read..]
  {
    assert rows == rows[..read] + rows[read..];
  }

  lemma ReadRowPresent(before: Schema, rows: seq<SqlObject>, after: Schema, o: SqlObject)
    requires CreateAll(before, Missing(rows, before.Keys)) == Some(after) && o in rows
    ensures o.name in after
  {
    CreatedContents(before, Missing(rows, before.Keys));
    MissingMember(rows, before.Keys, o);
  }

  lemma UnreadRowPresent(
    before: Schema, pristine: Schema, rows: seq<SqlObject>, read: nat, after: Schema, o: SqlObject)
    requires WantedRows(rows, pristine) && read <= |rows| && o in rows[read..]
    requires CreateAll(before, Missing(rows[..read], before.Keys)) == Some(after)
    ensures o.name in after <==> o.name in before
  {
    CreatedContents(before, Missing(rows[..read], before.Keys));
    if o.name in after && o.name !in before {
      var p := CreatedFrom(before, Missing(rows[..read], before.Keys), o.name);
      MissingMember(rows[..read], before.Keys, p);
      UniqueRow(rows, pristine, read, p, o);
    }
  }

  lemma UniqueRow(rows: seq<SqlObject>, pristine: Schema, read: nat, p: SqlObject, o: SqlObject)
    requires WantedRows(rows, pristine) && read <= |rows|
    requires p in rows[..read] && o in rows[read..]
    ensures p.name != o.name
  {
    assert p in rows && o in rows;
    var i :| 0 <= i < read && rows[i] == p;
    var j :| read <= j < |rows| && rows[j] == o;
    LessAsymmetric(SortKey(p), SortKey(o));
  }

  /** After a repair that left none of its unread rows missing, a second one finds
      nothing missing, however many rows it reads: it creates nothing and leaves the
      version alone. */
  lemma SecondRepairIsNoOp(
    before: Schema, pristine: Schema, rows: seq<SqlObject>, read: nat, after: Schema, again: seq<SqlObject>, n: nat)
    requires WantedRows(rows, pristine) && read <= |rows|
    requires CreateAll(before, Missing(rows[..read], before.Keys)) == Some(after)
    requires Missing(rows[read..], before.Keys) == []
    requires WantedRows(again, pristine) && n <= |again|
    ensures Missing(again[..n], after.Keys) == []
  {
    RepairIsComplete(before, pristine, rows, read, after);
    forall o | o in again[..n] ensures o.name in after.Keys {
      assert o in again;
      assert o in rows;
    }
    MissingNone(again[..n], after.Keys);
  }

  /** Every index and trigger of the pristine schema is on a wanted table. */
  ghost predicate OnTables(pristine: Schema) {
    forall n :: n in pristine && Wanted(pristine[n]) && (pristine[n].kind.IndexKind? || pristine[n].kind.Trigger?) ==>
      var t := pristine[n].table;
      t in pristine && pristine[t].kind.Table? && Wanted(pristine[t])
  }

  /** An index or trigger's table exists by the time the object is created. */
  ghost predicate DependencyOrder(before: Schema, todo: seq<SqlObject>) {
    forall i :: 0 <= i < |todo| && (todo[i].kind.IndexKind? || todo[i].kind.Trigger?) ==>
      todo[i].table in before || exists j :: 0 <= j < i && todo[j].name == todo[i].table
  }

  ghost predicate FreshNames(before: Schema, todo: seq<SqlObject>) {
    && (forall i :: 0 <= i < |todo| ==> todo[i].name !in before)
    && (forall i, j :: 0 <= i < j < |todo| ==> todo[i].name != todo[j].name)
  }

  /** The creation succeeds exactly when the order respects the dependencies. */
  lemma {:induction false} CreationSucceeds(before: Schema, todo: seq<SqlObject>)
    requires FreshNames(before, todo)
    ensures CreateAll(before, todo).Some? <==> DependencyOrder(before, todo)
    decreases |todo|
  {
    if todo != [] {
      var o, rest := todo[0], todo[1..];
      if Creatable(before, o) {
        var next := Create(before, o);
        CreationSucceeds(next, rest);
        ShiftOrder(before, o, todo);
      } else {
        assert !DependencyOrder(before, todo);
      }
    }
  }

  lemma ShiftOrder(before: Schema, o: SqlObject, todo: seq<SqlObject>)
    requires todo != [] && o == todo[0] && Creatable(before, o)
    ensures DependencyOrder(before, todo) <==> DependencyOrder(Create(before, o), todo[1..])
  {
    var rest := todo[1..];
    if DependencyOrder(before, todo) {
      forall i | 0 <= i < |rest| && (rest[i].kind.IndexKind? || rest[i].kind.Trigger?)
        ensures rest[i].table in Create(before, o) || exists j :: 0 <= j < i && rest[j].name == rest[i].table
      {
        assert rest[i] == todo[i + 1];
        if rest[i].table !in before {
          var j :| 0 <= j < i + 1 && todo[j].name == todo[i + 1].table;
          assert j > 0 ==> rest[j - 1] == todo[j];
        }
      }
    }
    if DependencyOrder(Create(before, o), rest) {
      forall i | 0 <= i < |todo| && (todo[i].kind.IndexKind? || todo[i].kind.Trigger?)
        ensures todo[i].table in before || exists j :: 0 <= j < i && todo[j].name == todo[i].table
      {
        if i > 0 {
          assert rest[i - 1] == todo[i];
          if todo[i].table !in before && todo[i].table != o.name {
            var j :| 0 <= j < i - 1 && rest[j].name == rest[i - 1].table;
            assert todo[j + 1] == rest[j];
          }
        }
      }
    }
  }

  /** When every index and trigger is on a table, creating the missing objects in
      the order of the rows cannot fail on a dependency, however many rows were
      read. */
  lemma RowsRespectDependencies(before: Schema, pristine: Schema, rows: seq<SqlObject>, read: nat)
    requires NamesMatch(pristine) && WantedRows(rows, pristine) && read <= |rows| && OnTables(pristine)
    ensures CreateAll(before, Missing(rows[..read], before.Keys)).Some?
  {
    var todo := Missing(rows[..read], before.Keys);
    MissingMembers(rows[..read], before.Keys);
    MissingOrder(rows[..read], before.Keys);
    MissingFresh(rows, pristine, before, todo);
    forall i | 0 <= i < |todo| && (todo[i].kind.IndexKind? || todo[i].kind.Trigger?)
      ensures todo[i].table in before || exists j :: 0 <= j < i && todo[j].name == todo[i].table
    {
      assert todo[i] in todo;
      if todo[i].table !in before {
        TableBefore(before, pristine, rows, read, todo, i);
      }
    }
    CreationSucceeds(before, todo);
  }

  /** The missing table of a missing index or trigger comes before it. */
  lemma TableBefore(
    before: Schema, pristine: Schema, rows: seq<SqlObject>, read: nat, todo: seq<SqlObject>, i: nat)
    requires NamesMatch(pristine) && WantedRows(rows, pristine) && read <= |rows| && OnTables(pristine)
    requires InOrder(todo) && forall o :: o in todo <==> o in rows[..read] && o.name !in before
    requires i < |todo| && (todo[i].kind.IndexKind? || todo[i].kind.Trigger?) && todo[i].table !in before
    ensures exists j :: 0 <= j < i && todo[j].name == todo[i].table
  {
    var o := todo[i];
    assert o in todo && o in rows[..read];
    assert o in rows;
    var t := pristine[o.table];
    assert t in rows;
    TableComesFirst(rows, read, o, t);
    assert t in todo;
    var j :| 0 <= j < |todo| && todo[j] == t;
    if j >= i {
      LessAsymmetric(SortKey(t), SortKey(o));
    }
  }

  lemma TableComesFirst(rows: seq<SqlObject>, read: nat, o: SqlObject, t: SqlObject)
    requires read <= |rows| && o in rows[..read] && t in rows && t.kind.Table? && !o.kind.Table?
    requires InOrder(rows)
    ensures Less(SortKey(t), SortKey(o)) && t in rows[..read]
  {
    var i :| 0 <= i < read && rows[i] == o;
    var j :| 0 <= j < |rows| && rows[j] == t;
    assert SortKey(t)[0] == '0' < SortKey(o)[0];
    assert Less(SortKey(t), SortKey(o));
    LessAsymmetric(SortKey(t), SortKey(o));
    assert rows[..read][j] == t;
  }

  lemma {:induction false} MissingOrder(rows: seq<SqlObject>, have: set<string>)
    requires InOrder(rows)
    ensures InOrder(Missing(rows, have))
  {
    if rows != [] {
      MissingOrder(rows[1..], have);
      var rest := Missing(rows[1..], have);
      forall o | o in rest ensures Less(SortKey(rows[0]), SortKey(o)) {
        MissingMember(rows[1..], have, o);
      }
      assert forall j :: 0 <= j < |rest| ==> rest[j] in rest;
      var m := [rows[0]] + rest;
      assert forall i, j :: 0 <= i < j < |m| ==> Less(SortKey(m[i]), SortKey(m[j]));
    }
  }

  lemma MissingFresh(rows: seq<SqlObject>, pristine: Schema, before: Schema, todo: seq<SqlObject>)
    requires WantedRows(rows, pristine)
    requires forall o :: o in todo ==> o in rows && o.name !in before
    requires InOrder(todo)
    ensures FreshNames(before, todo)
  {
    forall i | 0 <= i < |todo| ensures todo[i].name !in before {
      assert todo[i] in todo;
    }
    forall i, j | 0 <= i < j < |todo| ensures todo[i].name != todo[j].name {
      assert todo[i] in todo && todo[j] in todo;
      LessAsymmetric(SortKey(todo[i]), SortKey(todo[j]));
    }
  }

  /** A trigger on a view is not protected by the order: a trigger whose name
      sorts before its missing view's name makes the repair fail. */
  lemma TriggerOnViewFails(trigger: SqlObject, view: SqlObject)
    requires trigger.kind.Trigger? && view.kind.View? && trigger.table == view.name
    requires trigger.name != view.name && view.name != ""
    requires Less(trigger.name, view.name)
    ensures Less(SortKey(trigger), SortKey(view))
    ensures CreateAll(map[], [trigger, view]).None?
  {
    LessCommonPrefix("2", trigger.name, view.name);
  }
}
