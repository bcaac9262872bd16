/**
 The tables the gates read, as immutable sequences of rows, and the one
 query shape they issue: `db(table).where(col, v)[.andWhere(col2, w)].first()`.
 Only the columns some gate reads are kept.
 */
module Store {
  import opened JsValues
  import opened JsParseInt

  datatype UserRow = UserRow(userId: int, username: string)
  datatype TruckRow = TruckRow(truckId: int)
  datatype ItemRow = ItemRow(itemId: int)
  datatype PhotoRow = PhotoRow(photoId: int)

  /**
   A row of `truck_ratings`, `item_ratings` or `favorites`: its own key, the
   rated or favourited entity (`truck_id` or `item_id`) and the `user_id`.
   The score column is read by no gate.
   */
  datatype PairRow = PairRow(rowId: int, targetId: int, userId: int)

  datatype Db = Db(
    users: seq<UserRow>,
    trucks: seq<TruckRow>,
    items: seq<ItemRow>,
    photos: seq<PhotoRow>,
    truckRatings: seq<PairRow>,
    itemRatings: seq<PairRow>,
    favorites: seq<PairRow>)

  /**
   The integer a text binding denotes when the database compares it with an
   integer column: an optional sign and one or more decimal digits, nothing
   else. Other text matches no integer key.
   */
  function SqlInteger(s: string): (r: Option<int>)
    ensures r.Some? ==> |s| > 0
  {
    var negative := |s| > 0 && s[0] == '-';
    var u := if |s| > 0 && (s[0] == '-' || s[0] == '+') then s[1..] else s;
    if |u| > 0 && DigitRun(u, 10) == |u| then
      var m: int := DigitsValue(u, 10);
      Some(if negative then -m else m)
    else None
  }

  /** Whether binding `v` selects a row whose integer column holds `col`. */
  predicate IntKeyMatches(col: int, v: JsVal)
  {
    match v
    case Num(x) => x == col as real
    case Str(s) => SqlInteger(s) == Some(col)
    case _ => false
  }

  /**
   Whether binding `v` selects a row whose text column holds `col`. The
   database compares a number binding with text as the number's decimal
   text.
   */
  predicate TextKeyMatches(col: string, v: JsVal)
  {
    match v
    case Str(s) => s == col
    case Num(x) => x == x.Floor as real && col == IntToDecimal(x.Floor)
    case _ => false
  }

  /** The query builder's complaint when a `where` binding is `undefined`. */
  const UndefinedBinding := "Undefined binding(s) detected when compiling FIRST"

  /** The result of `.first()`: some row, no row, or the query builder refusing to run. */
  datatype Lookup = Found | Missing | BindingError

  /** Whether some row satisfies `p`. */
  function AnyRow<R>(rows: seq<R>, p: R -> bool): (b: bool)
    ensures b <==> exists i :: 0 <= i < |rows| && p(rows[i])
  {
    if |rows| == 0 then false
    else if p(rows[0]) then true
    else
      var b := AnyRow(rows[1..], p);
      assert forall i :: 0 < i < |rows| ==> rows[i] == rows[1..][i - 1];
      b
  }

  /**
   `.where(...).first()` with the given bindings and row condition. The query
   builder refuses an `undefined` binding and the query then raises instead
   of returning.
   */
  function Where<R>(rows: seq<R>, bindings: seq<JsVal>, p: R -> bool): (r: Lookup)
    ensures r == BindingError <==> Undefined in bindings
    ensures r == Found <==> Undefined !in bindings && exists i :: 0 <= i < |rows| && p(rows[i])
  {
    if Undefined in bindings then BindingError
    else if AnyRow(rows, p) then Found
    else Missing
  }

  /** The decimal text of a key selects exactly the rows holding that key. */
  lemma {:induction false} DecimalTextSelectsKey(col: int, k: int)
    ensures IntKeyMatches(col, Str(IntToDecimal(k))) <==> col == k
  {
    SqlIntegerOfDecimal(k);
  }

  lemma {:induction false} SqlIntegerOfDecimal(k: int)
    ensures SqlInteger(IntToDecimal(k)) == Some(k)
  {
    var m: nat := if k < 0 then -k else k;
    var d := NatToDecimal(m);
    DigitRunOfDigits(d, [], 10);
    assert d + [] == d;
    DecimalValue(m);
    if k < 0 {
      assert IntToDecimal(k)[1..] == d;
    }
  }

  /**
   Text that selects a row by its integer key is read by `parseInt` as the
   same integer: a path id an existence gate accepts passes the id checks
   against that key too.
   */
  lemma {:induction false} SqlIntegerAgreesWithParseInt(s: string, k: int)
    requires SqlInteger(s) == Some(k)
    ensures ParseInt(s) == Some(k)
  {
    var u := if s[0] == '-' || s[0] == '+' then s[1..] else s;
    assert DigitRun(u, 10) == |u|;
    assert Digit(u[0], 10).Some?;
    assert !HexPrefixed(u) by {
      if |u| >= 2 {
        assert Digit(u[1], 10).Some?;
      }
    }
    assert u[..|u|] == u;
    assert ReadDigits(u, 10) == Some(DigitsValue(u, 10));
    assert TrimStart(s) == s by {
      assert !IsJsSpace(s[0]);
    }
  }
}
