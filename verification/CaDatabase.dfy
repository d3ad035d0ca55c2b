/**
 The database at work: rows that the list and both indexes share and that are changed in place.
 */
module CaDatabase {
  import opened CStrings
  import opened Options
  import opened Revocation
  import opened Expiry
  import opened CaState

  class Row {
    var typ: char
    var revDate: string
    const expDate: string
    const serial: string
    const file: string
    const name: string

    constructor (e: Entry)
      ensures Value() == e
    {
      typ, revDate, expDate, serial, file, name := e.typ, e.revoked, e.expires, e.serial, e.file, e.name;
    }

    function Value(): Entry
      reads this
    {
      Entry(typ, expDate, revDate, serial, file, name)
    }
  }

  datatype Field = BySerial | ByName

  // What the hash and comparison functions of an index look at
  function Key(r: Row, field: Field): string {
    if field == BySerial then SerialKey(r.serial) else r.name
  }

  function Values(rows: seq<Row>): (v: seq<Entry>)
    reads rows
    ensures |v| == |rows| && forall i :: 0 <= i < |rows| ==> v[i] == rows[i].Value()
  {
    if rows == [] then [] else Values(rows[..|rows| - 1]) + [rows[|rows| - 1].Value()]
  }

  function Held(rows: seq<Row>, index: seq<Row>): (h: seq<bool>)
    ensures |h| == |rows| && forall i :: 0 <= i < |rows| ==> h[i] == (rows[i] in index)
  {
    if rows == [] then [] else Held(rows[..|rows| - 1], index) + [rows[|rows| - 1] in index]
  }

  // lh_retrieve: the row of an index with this key
  method Retrieve(index: seq<Row>, field: Field, key: string) returns (r: Row?)
    ensures r == null <==> forall x :: x in index ==> Key(x, field) != key
    ensures r != null ==> r in index && Key(r, field) == key
  {
    var k := 0;
    while k < |index|
      invariant 0 <= k <= |index| && forall j :: 0 <= j < k ==> Key(index[j], field) != key
    {
      if Key(index[k], field) == key {
        return index[k];
      }
      k := k + 1;
    }
    r := null;
  }

  // index_name_qual: only valid rows enter the name index. The other index takes all.
  predicate Qualifies(r: Row, field: Field)
    reads r
  {
    field == BySerial || r.typ == 'V'
  }

  // No two rows that belong into an index have the same key there.
  predicate NoClash(rows: seq<Row>, field: Field)
    reads rows
  {
    forall i, k :: 0 <= i < k < |rows| && Qualifies(rows[i], field) && Qualifies(rows[k], field)
      ==> Key(rows[i], field) != Key(rows[k], field)
  }

  lemma NoRowsNoClash(field: Field)
    ensures NoClash([], field)
  {
  }

  // One more row clashes with none before it.
  lemma NoClashSnoc(rows: seq<Row>, row: Row, field: Field)
    requires NoClash(rows, field)
    ensures NoClash(rows + [row], field)
       <==> (Qualifies(row, field) ==>
               forall r :: r in rows && Qualifies(r, field) ==> Key(r, field) != Key(row, field))
  {
    hide Key, Qualifies;
    var all := rows + [row];
    assert all[|rows|] == row && forall i :: 0 <= i < |rows| ==> all[i] == rows[i] && rows[i] in rows;
    if !NoClash(all, field) {
      var i, k :| 0 <= i < k < |all| && Qualifies(all[i], field) && Qualifies(all[k], field)
                  && Key(all[i], field) == Key(all[k], field);
      assert k == |rows|;
    }
  }

  lemma NoClashPrefix(rows: seq<Row>, n: nat, field: Field)
    requires n <= |rows| && NoClash(rows, field)
    ensures NoClash(rows[..n], field)
  {
    hide Key, Qualifies;
  }

  predicate DistinctKeys(rows: seq<Row>) {
    forall i, k :: 0 <= i < k < |rows| ==> Key(rows[i], BySerial) != Key(rows[k], BySerial)
  }

  // ----- Rows and their values -----

  lemma ValuesSnoc(rows: seq<Row>, row: Row)
    ensures Values(rows + [row]) == Values(rows) + [row.Value()]
  {
    assert (rows + [row])[..|rows|] == rows;
  }

  lemma HeldSnoc(rows: seq<Row>, row: Row, index: seq<Row>, more: seq<Row>)
    requires forall r :: r in rows ==> (r in more <==> r in index)
    ensures Held(rows + [row], more) == Held(rows, index) + [row in more]
  {
  }

  // What TXT_DB_insert asks of its indexes is what the values have to meet.
  lemma AcceptsByKeys(s: State, rows: seq<Row>, byName: seq<Row>, row: Row)
    requires s.rows == Values(rows) && s.named == Held(rows, byName) && forall r :: r in byName ==> r in rows
    ensures Accepts(s, row.Value())
       <==> && (forall x :: x in rows ==> Key(x, BySerial) != Key(row, BySerial))
            && (s.unique && row.typ == 'V' ==> forall x :: x in byName ==> Key(x, ByName) != Key(row, ByName))
  {
    hide SerialKey, Values, Held;
    forall x | x in rows
      ensures exists i :: 0 <= i < |rows| && x == rows[i] && s.rows[i] == x.Value() && s.named[i] == (x in byName)
    {
      var i :| 0 <= i < |rows| && rows[i] == x;
      assert s.rows[i] == x.Value();
    }
    forall i | 0 <= i < |rows|
      ensures rows[i] in rows && s.rows[i] == rows[i].Value() && s.named[i] == (rows[i] in byName)
    {
    }
  }

  lemma SerialsAsValues(rows: seq<Row>)
    ensures DistinctSerials(Values(rows)) <==> DistinctKeys(rows)
    ensures NoClash(rows, BySerial) <==> DistinctKeys(rows)
  {
    hide SerialKey;
    forall i | 0 <= i < |rows| ensures SerialKey(Values(rows)[i].serial) == Key(rows[i], BySerial) {
    }
  }

  lemma NamesAsValues(rows: seq<Row>)
    ensures DistinctNames(Values(rows), Loaded(Values(rows), true).named)
       <==> NoClash(rows, ByName)
  {
    hide SerialKey;
    forall i | 0 <= i < |rows|
      ensures Values(rows)[i].name == Key(rows[i], ByName)
      ensures Loaded(Values(rows), true).named[i] == Qualifies(rows[i], ByName)
    {
    }
  }

  lemma RowsDiffer(rows: seq<Row>)
    requires DistinctKeys(rows)
    ensures forall i, k :: 0 <= i < |rows| && 0 <= k < |rows| && i != k ==> rows[i] != rows[k]
  {
    hide Key;
    forall i, k | 0 <= i < |rows| && 0 <= k < |rows| && i != k ensures rows[i] != rows[k] {
      assert Key(rows[i], BySerial) != Key(rows[k], BySerial);
    }
  }

  // What was entered last is found at the end.
  lemma FindInserted(s: State, e: Entry)
    requires |s.named| == |s.rows| && Accepts(s, e)
    ensures FindSerial(CaState.Insert(s, e).rows, e.serial) == |s.rows|
  {
    hide SerialKey, FindSerial;
    var rows := CaState.Insert(s, e).rows;
    assert rows[|s.rows|] == e;
    assert forall k :: 0 <= k < |s.rows| ==> rows[k] == s.rows[k];
  }

  lemma LoadedParts(rows: seq<Entry>, unique: bool)
    ensures Loaded(rows, unique).rows == rows && Loaded(rows, unique).unique == unique
  {
  }

  lemma LoadedIndex(rows: seq<Row>, byName: seq<Row>, unique: bool)
    requires forall r :: r in byName <==> unique && r in rows && Qualifies(r, ByName)
    ensures Held(rows, byName) == Loaded(Values(rows), unique).named
    ensures !unique ==> DistinctNames(Values(rows), Loaded(Values(rows), unique).named)
  {
  }

  // The values while a pass over the rows has come to position i
  ghost function Passed(rows: seq<Entry>, i: nat, now: string): seq<Entry>
    requires i <= |rows|
  {
    ExpireRows(rows[..i], now) + rows[i..]
  }

  lemma NothingPassed(rows: seq<Entry>, now: string)
    ensures Passed(rows, 0, now) == rows && CountExpired(rows[..0], now) == 0
  {
    assert rows[0..] == rows;
  }

  lemma AllPassed(rows: seq<Entry>, now: string)
    ensures Passed(rows, |rows|, now) == ExpireRows(rows, now) && rows[..|rows|] == rows
  {
    assert rows[..|rows|] == rows;
  }

  lemma PassNext(rows: seq<Entry>, i: nat, now: string)
    requires i < |rows|
    ensures Passed(rows, i, now)[i] == rows[i]
    ensures Passed(rows, i + 1, now) == Passed(rows, i, now)[i := ExpireRow(rows[i], now)]
    ensures CountExpired(rows[..i + 1], now)
         == CountExpired(rows[..i], now)
            + if rows[i].typ == 'V' && MarksExpired(rows[i].expires, now) then 1 else 0
  {
    hide MarksExpired, ExpireRow;
    assert rows[..i + 1][..i] == rows[..i];
  }

  class Database {
    var data: seq<Row>
    var bySerial: seq<Row>
    var byName: seq<Row>
    const unique: bool

    ghost predicate Valid()
      reads this
    {
      && DistinctKeys(data)
      && bySerial == data
      && forall r :: r in byName ==> r in data
    }

    ghost function View(): State
      reads this, data
    {
      State(Values(data), Held(data, byName), unique)
    }

    // ----- Loading -----

    // TXT_DB_create_index
    static method CreateIndex(rows: seq<Row>, field: Field) returns (ok: bool, index: seq<Row>)
      ensures ok <==> NoClash(rows, field)
      ensures ok ==> forall r :: r in index <==> r in rows && Qualifies(r, field)
      ensures ok && field == BySerial ==> index == rows
    {
      hide Key, NoClash;
      index := [];
      var i := 0;
      NoRowsNoClash(field);
      while i < |rows|
        invariant 0 <= i <= |rows| && NoClash(rows[..i], field)
        invariant forall r :: r in index <==> r in rows[..i] && Qualifies(r, field)
        invariant field == BySerial ==> index == rows[..i]
      {
        assert rows[..i + 1] == rows[..i] + [rows[i]];
        NoClashSnoc(rows[..i], rows[i], field);
        if Qualifies(rows[i], field) {
          var clash := Retrieve(index, field, Key(rows[i], field));
          if clash != null {
            assert clash in rows[..i] && Qualifies(clash, field);
            if NoClash(rows, field) {
              NoClashPrefix(rows, i + 1, field);
            }
            return false, [];
          }
          index := index + [rows[i]];
        }
        i := i + 1;
      }
      assert rows[..i] == rows;
      ok := true;
    }

    // The loop over the characters of a serial number in ca_main
    static method SerialIsWellFormed(s: string) returns (ok: bool)
      ensures ok == WellFormedSerial(s)
    {
      var p, j := 0, |s|;
      if j > 0 && s[0] == '-' {
        p, j := 1, j - 1;
      }
      if j % 2 == 1 || j < 2 {
        return false;
      }
      ghost var digits := s[p..];
      assert digits == if s != [] && s[0] == '-' then s[1..] else s;
      while p < |s|
        invariant |s| - |digits| <= p <= |s|
        invariant forall c :: c in digits[..p - (|s| - |digits|)] ==> IsHexDigit(c)
      {
        ghost var d := p - (|s| - |digits|);
        assert digits[..d + 1] == digits[..d] + [s[p]];
        if !IsHexDigit(s[p]) {
          assert s[p] in digits[..d + 1];
          return false;
        }
        p := p + 1;
      }
      assert digits[..|digits|] == digits;
      ok := true;
    }

    // The checks of ca_main over all rows
    static method RowsAreSound(rows: seq<Row>, formats: Formats) returns (ok: bool)
      requires forall r :: r in rows ==> NUL !in r.revDate
      ensures ok == AllSound(Values(rows), formats)
    {
      hide Unpack, WellFormedSerial;
      var i := 0;
      while i < |rows|
        invariant 0 <= i <= |rows| && forall k :: 0 <= k < i ==> Sound(rows[k].Value(), formats)
      {
        var pp := rows[i];
        if pp.typ != 'R' && pp.revDate != "" {
          return false;
        }
        if pp.typ == 'R' {
          var info := UnpackRevinfo(pp.revDate, formats);
          if info == None {
            return false;
          }
        }
        if !formats.anyTime(pp.expDate) {
          return false;
        }
        var serialOk := SerialIsWellFormed(pp.serial);
        if !serialOk {
          return false;
        }
        i := i + 1;
      }
      ok := true;
    }

    constructor (rows: seq<Row>, uniqueSubject: bool)
      ensures data == rows && unique == uniqueSubject
    {
      data, bySerial, byName, unique := rows, [], [], uniqueSubject;
    }

    // The checks and index_index: exactly the rows of a checked database get through.
    method CheckAndIndex(formats: Formats) returns (ok: bool)
      requires forall r :: r in data ==> NUL !in r.revDate
      modifies this
      ensures data == old(data)
      ensures ok <==> Loads(Values(data), unique, formats)
      ensures ok ==> Valid() && View() == Loaded(Values(data), unique)
    {
      hide AllSound, SerialKey, Values, Held, DistinctSerials, DistinctNames, Loaded, Key, NoClash, DistinctKeys;
      ok := RowsAreSound(data, formats);
      if !ok {
        return;
      }
      ok, bySerial := CreateIndex(data, BySerial);
      SerialsAsValues(data);
      if !ok {
        return;
      }
      byName := [];
      if unique {
        NamesAsValues(data);
        ok, byName := CreateIndex(data, ByName);
        if !ok {
          return;
        }
      }
      LoadedIndex(data, byName, unique);
      LoadedParts(Values(data), unique);
    }

    // ----- Changing -----

    // TXT_DB_insert
    method Insert(row: Row) returns (ok: bool)
      requires Valid() && row !in data
      modifies this
      ensures Valid()
      ensures ok == Accepts(old(View()), row.Value())
      ensures ok ==> data == old(data) + [row] && View() == CaState.Insert(old(View()), row.Value())
      ensures !ok ==> data == old(data) && View() == old(View())
    {
      hide SerialKey, Values, Held, Accepts, Key;
      AcceptsByKeys(View(), data, byName, row);
      var clash := Retrieve(bySerial, BySerial, Key(row, BySerial));
      if clash != null {
        return false;
      }
      if unique && Qualifies(row, ByName) {
        clash := Retrieve(byName, ByName, Key(row, ByName));
        if clash != null {
          return false;
        }
      }
      Append(row);
      ok := true;
    }

    // A row that has passed goes to the list and to the indexes it belongs into.
    method Append(row: Row)
      requires Valid() && row !in data && forall x :: x in data ==> Key(x, BySerial) != Key(row, BySerial)
      modifies this
      ensures Valid()
      ensures data == old(data) + [row] && View() == CaState.Insert(old(View()), row.Value())
    {
      hide SerialKey, Values, Held, Key;
      HeldSnoc(data, row, byName, byName + if unique && row.typ == 'V' then [row] else []);
      ValuesSnoc(data, row);
      data := data + [row];
      bySerial := bySerial + [row];
      if unique && Qualifies(row, ByName) {
        byName := byName + [row];
      }
    }

    // The row with a serial number, as the index finds it
    method FindRow(serial: string) returns (r: Row?, ghost i: nat)
      requires Valid()
      ensures i == FindSerial(View().rows, serial)
      ensures r == null <==> i == |data|
      ensures r != null ==> i < |data| && r == data[i]
    {
      hide SerialKey;
      r := Retrieve(bySerial, BySerial, SerialKey(serial));
      i := FindSerial(View().rows, serial);
      if r == null {
        if i < |data| {
          assert Key(data[i], BySerial) == SerialKey(serial);
        }
      } else {
        var k :| 0 <= k < |data| && data[k] == r;
        assert View().rows[k].serial == r.serial;
        assert Key(data[i], BySerial) == Key(data[k], BySerial);
      }
    }

    // The end of do_body
    method Issue(cert: Certificate) returns (ok: bool)
      requires Valid()
      modifies this
      ensures Valid() && forall r :: r in data ==> r in old(data) || fresh(r)
      ensures Result(ok, View()) == CaState.Issue(old(View()), cert)
    {
      var rrow, i := FindRow(cert.serial);
      if rrow != null {
        return false;
      }
      var row := new Row(NewRow(cert));
      ok := Insert(row);
    }

    // The row is shared by the list and the indexes; setting its fields changes it for all of them.
    method MarkRevoked(rrow: Row, ghost i: nat, revDate: string)
      requires Valid() && i < |data| && rrow == data[i]
      modifies rrow
      ensures Valid()
      ensures View() == old(View()).(rows := old(View()).rows[i := old(rrow.Value()).(typ := 'R', revoked := revDate)])
    {
      hide SerialKey, Held;
      rrow.typ := 'R';
      rrow.revDate := revDate;
      forall k | 0 <= k < |data| && k != i ensures data[k].Value() == old(data[k].Value()) {
        assert Key(data[k], BySerial) != Key(data[i], BySerial);
      }
    }

    // do_revoke. After entering a certificate that was not there it calls itself, and then no more.
    method Revoke(cert: Certificate, revType: int, arg: string, now: string, formats: Formats) returns (ok: bool)
      requires Valid() && NUL !in arg && NUL !in now
      modifies this, data
      ensures Valid() && forall r :: r in data ==> r in old(data) || fresh(r)
      ensures Result(ok, View()) == CaState.Revoke(old(View()), cert, revType, arg, now, formats)
      decreases if FindSerial(View().rows, cert.serial) == |data| then 1 else 0
    {
      hide SerialKey, Values, Held, Key, RevokeRow, DistinctKeys;
      var rrow, i := FindRow(cert.serial);
      if rrow == null {
        var row := new Row(NewRow(cert));
        ok := Insert(row);
        if !ok {
          return;
        }
        if revType == -1 {
          return true;
        }
        FindInserted(old(View()), NewRow(cert));
        ok := Revoke(cert, revType, arg, now, formats);
      } else if cert.name != rrow.name {
        return false;
      } else if revType == -1 {
        return false;
      } else {
        ok := RevokeFound(rrow, i, revType, arg, now, formats);
      }
    }

    // The row that was found is revoked, unless it is already or the argument is invalid.
    method RevokeFound(rrow: Row, ghost i: nat, revType: int, arg: string, now: string, formats: Formats)
      returns (ok: bool)
      requires Valid() && NUL !in arg && NUL !in now && i < |data| && rrow == data[i]
      modifies rrow
      ensures Valid()
      ensures Result(ok, View()) == RevokeRow(old(View()), i, revType, arg, now, formats)
    {
      hide SerialKey, Values, Held, Key, PartsOf, Printed, DistinctKeys;
      if rrow.typ == 'R' {
        return false;
      }
      var str := MakeRevocationStr(revType, arg, now, formats);
      if str == null {
        return false;
      }
      PrintedIsClean(revType, arg, now, formats);
      StringInBuffer(str[..], 0, Printed(now, PartsOf(revType, arg, formats)));
      MarkRevoked(rrow, i, CString(str[..], 0));
      ok := true;
    }

    // The body of the loop of do_updatedb
    static method ExpireInPlace(rrow: Row, now: string, aY2k: bool) returns (changed: bool)
      requires aY2k == After2000(now)
      modifies rrow
      ensures rrow.Value() == ExpireRow(old(rrow.Value()), now)
      ensures changed == (old(rrow.typ) == 'V' && MarksExpired(rrow.expDate, now))
    {
      hide Compare, After2000;
      changed := false;
      if rrow.typ == 'V' {
        var dbY2k := After2000(rrow.expDate);
        if dbY2k == aY2k {
          if Compare(rrow.expDate, now) <= 0 {
            rrow.typ := 'E';
            changed := true;
          }
        } else if !dbY2k && aY2k {
          rrow.typ := 'E';
          changed := true;
        }
      }
    }

    static method ExpireAt(rows: seq<Row>, i: nat, now: string) returns (changed: bool)
      requires DistinctKeys(rows) && i < |rows|
      modifies rows[i]
      ensures Values(rows) == old(Values(rows))[i := ExpireRow(old(Values(rows))[i], now)]
      ensures changed == (old(rows[i].typ) == 'V' && MarksExpired(rows[i].expDate, now))
    {
      hide After2000, ExpireRow, Values, MarksExpired, DistinctKeys;
      RowsDiffer(rows);
      changed := ExpireInPlace(rows[i], now, After2000(now));
    }

    // The loop of do_updatedb
    static method ExpireAll(rows: seq<Row>, now: string) returns (cnt: nat)
      requires DistinctKeys(rows)
      modifies rows
      ensures Values(rows) == ExpireRows(old(Values(rows)), now)
      ensures cnt == CountExpired(old(Values(rows)), now)
    {
      hide Values, MarksExpired, DistinctKeys, ExpireRows, ExpireRow, CountExpired;
      ghost var before := Values(rows);
      cnt := 0;
      var i := 0;
      NothingPassed(before, now);
      while i < |rows|
        invariant 0 <= i <= |rows|
        invariant Values(rows) == Passed(before, i, now)
        invariant cnt == CountExpired(before[..i], now)
      {
        PassNext(before, i, now);
        var changed := ExpireAt(rows, i, now);
        if changed {
          cnt := cnt + 1;
        }
        i := i + 1;
      }
      AllPassed(before, now);
    }

    // do_updatedb
    method UpdateDb(now: string) returns (cnt: nat)
      requires Valid()
      modifies data
      ensures Valid()
      ensures View() == Expire(old(View()), now)
      ensures cnt == CountExpired(old(View()).rows, now)
    {
      hide DistinctKeys, Values, Held;
      cnt := ExpireAll(data, now);
    }
  }
}
