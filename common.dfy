/** Shared vocabulary: optional values (Java's nullable references), the
    results of operations that can throw one of the application's exceptions,
    and table helpers that turn a keyed table into rows in ascending key order. */
module Common {

  /** A database identity (Java `Long`). */
  type Id = int

  /** A timestamp (`LocalDateTime`), as an integer on one time line. */
  type Time = int

  /** A nullable Java reference: `None` stands for `null`. */
  datatype Option<+T> = None | Some(value: T)

  /** The application's exception classes, one constructor per class. */
  datatype Error =
    | UserNotFound
    | ItemNotFound
    | BookingNotFound
    | ItemNotAvailable
    | BookingValidation
    | BookingPermissionDenied
    | CommentImpossible
    | ItemValidation
    | ItemOwnership
    | UserValidation
    | UserDuplicateEmail
    | EnumConverter

  /** The value an operation returns, or the exception it throws. */
  datatype Result<+T> = Ok(value: T) | Err(error: Error)

  /** The outcome of a `void` check that may throw. */
  datatype Outcome = Pass | Fail(error: Error)

  /** No element occurs twice. */
  predicate Distinct<T(==)>(s: seq<T>) {
    forall i, j :: 0 <= i < j < |s| ==> s[i] != s[j]
  }

  /** Strictly increasing. */
  predicate Ascending(s: seq<Id>) {
    forall i, j :: 0 <= i < j < |s| ==> s[i] < s[j]
  }

  lemma NonEmptyHasMember(ks: set<Id>)
    requires ks != {}
    ensures exists k :: k in ks
  {
    if forall k :: k !in ks {
      assert false;
    }
  }

  lemma {:induction false} MinimumExists(ks: set<Id>)
    requires ks != {}
    ensures exists k :: k in ks && forall j :: j in ks ==> k <= j
    decreases |ks|
  {
    NonEmptyHasMember(ks);
    var k :| k in ks;
    var rest := ks - {k};
    if j :| j in rest {
      MinimumExists(rest);
      var m :| m in rest && forall i :: i in rest ==> m <= i;
      var least := if m < k then m else k;
      forall i | i in ks ensures least <= i {
        if i != k { assert i in rest; }
      }
      assert least in ks;
    } else {
      forall i | i in ks ensures k <= i {
        assert i !in rest;
      }
    }
  }

  /** The least key of a non-empty key set. */
  function MinKey(ks: set<Id>): (k: Id)
    requires ks != {}
    ensures k in ks && forall j :: j in ks ==> k <= j
  {
    MinimumExists(ks);
    var k :| k in ks && forall j :: j in ks ==> k <= j;
    k
  }

  /** The keys of a table in ascending order, the order in which the tables'
      identity columns hand them out. */
  function AscendingKeys(ks: set<Id>): (r: seq<Id>)
    ensures Ascending(r)
    ensures forall k :: k in r <==> k in ks
    ensures |r| == |ks|
    decreases |ks|
  {
    if ks == {} then []
    else
      var k := MinKey(ks);
      var rest := AscendingKeys(ks - {k});
      assert forall j :: j in rest ==> k < j;
      [k] + rest
  }

  /** The rows of a table, in ascending key order. */
  function Rows<V>(m: map<Id, V>): (r: seq<V>)
    ensures |r| == |m.Keys|
    ensures forall i :: 0 <= i < |r| ==> AscendingKeys(m.Keys)[i] in m && r[i] == m[AscendingKeys(m.Keys)[i]]
  {
    var ks := AscendingKeys(m.Keys);
    assert forall i :: 0 <= i < |ks| ==> ks[i] in m by {
      forall i | 0 <= i < |ks| ensures ks[i] in m {
        assert ks[i] in ks;
      }
    }
    RowsAt(m, ks)
  }

  /** Every row of the table occurs among its `Rows`, and only those do. */
  lemma RowsMembership<V>(m: map<Id, V>, v: V)
    ensures v in Rows(m) <==> v in m.Values
  {
    var ks := AscendingKeys(m.Keys);
    var r := Rows(m);
    if v in m.Values {
      var k :| k in m && m[k] == v;
      assert k in ks;
      var i :| 0 <= i < |ks| && ks[i] == k;
      assert r[i] == v;
    }
    if v in r {
      var i :| 0 <= i < |r| && r[i] == v;
      assert ks[i] in m && m[ks[i]] == v;
    }
  }

  /** A key below every key of an ascending list can be put in front of it. */
  lemma AscendingCons(x: Id, s: seq<Id>)
    requires Ascending(s)
    requires forall k :: k in s ==> x < k
    ensures Ascending([x] + s)
  {
    forall i, j | 0 <= i < j < |[x] + s| ensures ([x] + s)[i] < ([x] + s)[j] {
      assert ([x] + s)[j] == s[j - 1];
      if i > 0 {
        assert ([x] + s)[i] == s[i - 1];
      } else {
        assert s[j - 1] in s;
      }
    }
  }

  /** The keys of `ks` that `keep` accepts, in their original order. */
  function FilterIds(ks: seq<Id>, keep: Id -> bool): (r: seq<Id>)
    ensures forall k :: k in r <==> k in ks && keep(k)
    ensures Ascending(ks) ==> Ascending(r)
  {
    if ks == [] then []
    else
      var tail := FilterIds(ks[1..], keep);
      assert ks == [ks[0]] + ks[1..];
      if keep(ks[0]) then
        assert Ascending(ks) ==> Ascending([ks[0]] + tail) by {
          if Ascending(ks) {
            assert Ascending(ks[1..]);
            forall k | k in tail ensures ks[0] < k {
              var j :| 0 <= j < |ks[1..]| && ks[1..][j] == k;
              assert ks[j + 1] == k;
            }
            AscendingCons(ks[0], tail);
          }
        }
        [ks[0]] + tail
      else
        assert Ascending(ks) ==> Ascending(ks[1..]);
        tail
  }

  /** The keys of the rows a `WHERE` clause keeps, in ascending order. */
  function FilteredKeys<V>(m: map<Id, V>, where: V -> bool): (r: seq<Id>)
    ensures Ascending(r)
    ensures forall k :: k in r <==> k in m && where(m[k])
  {
    FilterIds(AscendingKeys(m.Keys), k => k in m && where(m[k]))
  }

  /** The rows at the given keys, in that order. */
  function RowsAt<V>(m: map<Id, V>, ks: seq<Id>): (r: seq<V>)
    requires forall i :: 0 <= i < |ks| ==> ks[i] in m
    ensures |r| == |ks|
    ensures forall i :: 0 <= i < |r| ==> r[i] == m[ks[i]]
  {
    seq(|ks|, i requires 0 <= i < |ks| => m[ks[i]])
  }

  lemma RowsAtMembership<V>(m: map<Id, V>, ks: seq<Id>, v: V)
    requires forall i :: 0 <= i < |ks| ==> ks[i] in m
    ensures v in RowsAt(m, ks) <==> exists k :: k in ks && m[k] == v
  {
    var r := RowsAt(m, ks);
    if k :| k in ks && m[k] == v {
      var i :| 0 <= i < |ks| && ks[i] == k;
      assert r[i] == v;
    }
    if v in r {
      var i :| 0 <= i < |r| && r[i] == v;
      var k := ks[i];
      assert k in ks && m[k] == v;
    }
  }

  /** The rows a `WHERE` clause keeps, in ascending key order. */
  function FilterRows<V(==,!new)>(m: map<Id, V>, where: V -> bool): (r: seq<V>)
    ensures |r| == |FilteredKeys(m, where)|
    ensures forall i :: 0 <= i < |r| ==> FilteredKeys(m, where)[i] in m && r[i] == m[FilteredKeys(m, where)[i]]
    ensures forall v :: v in r <==> v in m.Values && where(v)
  {
    var ks := FilteredKeys(m, where);
    assert forall i :: 0 <= i < |ks| ==> ks[i] in m by {
      forall i | 0 <= i < |ks| ensures ks[i] in m {
        assert ks[i] in ks;
      }
    }
    forall v ensures v in RowsAt(m, ks) <==> v in m.Values && where(v) {
      RowsAtMembership(m, ks, v);
    }
    RowsAt(m, ks)
  }
}
