/** Shared vocabulary of the rental back end: identifiers, instants, the
    error taxonomy, ASCII case folding, substring search, and the order in
    which a keyed table is scanned. */
module Common {

  /** A database or in-memory identifier (a Java `Long`). */
  type Id = int

  /** A `LocalDateTime`, as a count of nanoseconds on one local clock. */
  type Instant = int

  /** One second, in the unit of `Instant`. */
  const Second: int := 1_000_000_000

  datatype Option<+T> = None | Some(value: T) {
    function GetOr(default: T): T {
      match this
      case Some(v) => v
      case None => default
    }
  }

  /** The exceptions the services raise. `NullPointer` is the unchecked
      NullPointerException that escapes when code dereferences a missing
      map entry. */
  datatype Error = NotFound | BadRequest | Conflict | NullPointer

  datatype Result<+T> = Ok(value: T) | Err(error: Error)

  datatype Outcome = Pass | Fail(error: Error)

  // ---------------------------------------------------------------------
  // Case-insensitive substring search (ASCII folding only)
  // ---------------------------------------------------------------------

  function LowerChar(c: char): (d: char)
    ensures 'A' <= c <= 'Z' ==> d as int == c as int + 32
    ensures !('A' <= c <= 'Z') ==> d == c
  {
    if 'A' <= c <= 'Z' then (c as int + 32) as char else c
  }

  /** `String.toLowerCase`, restricted to the ASCII letters. */
  function Lower(s: string): (r: string)
    ensures |r| == |s|
    ensures forall i :: 0 <= i < |s| ==> r[i] == LowerChar(s[i])
  {
    seq(|s|, i requires 0 <= i < |s| => LowerChar(s[i]))
  }

  lemma LowerIdempotent(s: string)
    ensures Lower(Lower(s)) == Lower(s)
  {
    assert forall i :: 0 <= i < |s| ==> LowerChar(LowerChar(s[i])) == LowerChar(s[i]);
  }

  predicate OccursAt(s: string, t: string, i: int) {
    0 <= i && i + |t| <= |s| && s[i..i + |t|] == t
  }

  /** `s.contains(t)`. */
  predicate Contains(s: string, t: string) {
    exists i :: 0 <= i <= |s| - |t| && OccursAt(s, t, i)
  }

  /** `s.toLowerCase().contains(t.toLowerCase())`. */
  predicate ContainsIgnoreCase(s: string, t: string) {
    Contains(Lower(s), Lower(t))
  }

  lemma ContainsIgnoreCaseOfLower(s: string, t: string)
    ensures ContainsIgnoreCase(s, Lower(t)) == ContainsIgnoreCase(s, t)
  {
    LowerIdempotent(t);
  }

  // ---------------------------------------------------------------------
  // Scanning a keyed table in ascending key order
  // ---------------------------------------------------------------------

  lemma {:induction false} MinExists(s: set<int>)
    requires s != {}
    ensures exists m :: m in s && forall y :: y in s ==> m <= y
  {
    var x := PickFrom(s);
    var rest := s - {x};
    assert forall y :: y in s ==> y == x || y in rest;
    if rest == {} {
      assert forall y :: y in s ==> x <= y;
    } else {
      MinExists(rest);
      var m :| m in rest && forall y :: y in rest ==> m <= y;
      if x < m {
        assert forall y :: y in s ==> x <= y;
      } else {
        assert forall y :: y in s ==> m <= y;
      }
    }
  }

  lemma PickFrom(s: set<int>) returns (x: int)
    requires s != {}
    ensures x in s
  {
    if forall e :: e !in s {
      assert false;
    }
    x :| x in s;
  }

  function Min(s: set<int>): (m: int)
    requires s != {}
    ensures m in s && forall y :: y in s ==> m <= y
  {
    MinExists(s);
    var m :| m in s && forall y :: y in s ==> m <= y; m
  }

  /** The rows of a table, scanned in ascending key order: the row under
      the smallest key, then the rows of the rest of the table. */
  function Rows<T(==,!new)>(m: map<int, T>): (r: seq<T>)
    ensures |r| == |m|
    ensures forall v :: v in r <==> v in m.Values
    decreases |m|
  {
    if |m| == 0 then []
    else
      assert m.Keys != {} by {
        assert |m.Keys| == |m|;
      }
      var k := Min(m.Keys);
      var rest := m - {k};
      assert rest.Keys == m.Keys - {k};
      assert |rest| == |m| - 1 by {
        assert |rest.Keys| == |m.Keys - {k}|;
      }
      assert forall v :: v in m.Values <==> v == m[k] || v in rest.Values by {
        forall v | v in m.Values ensures v == m[k] || v in rest.Values {
          var j :| j in m && m[j] == v;
          if j != k {
            assert rest[j] == v;
          }
        }
      }
      [m[k]] + Rows(rest)
  }

  /** No two keys of the table hold the same row. */
  predicate DistinctRows<T(==)>(m: map<int, T>)
  {
    forall j, k :: j in m && k in m && j != k ==> m[j] != m[k]
  }

  /** When no two keys hold the same row, the scan lists every row of the
      table exactly once and nothing else. */
  lemma {:induction false} RowsCount<T(!new)>(m: map<int, T>, v: T)
    requires DistinctRows(m)
    ensures multiset(Rows(m))[v] == if v in m.Values then 1 else 0
    decreases |m|
  {
    if |m| != 0 {
      assert m.Keys != {} by {
        assert |m.Keys| == |m|;
      }
      var k := Min(m.Keys);
      var rest := m - {k};
      assert rest.Keys == m.Keys - {k};
      assert |rest| == |m| - 1 by {
        assert |rest.Keys| == |m.Keys - {k}|;
      }
      assert Rows(m) == [m[k]] + Rows(rest);
      RowsCount(rest, v);
      if v in m.Values {
        if forall j :: j in m ==> m[j] != v {
          assert false;
        }
        var j :| j in m && m[j] == v;
        if j != k {
          assert rest[j] == v;
          assert v != m[k];
        }
      } else {
        assert v != m[k];
      }
    }
  }
}
