/**
 The payload and store gates of `api/middleware/index.js`: required-field
 validators, primary-key existence checks, body-id/path-id match checks and
 the rating/favorite uniqueness gate. Every gate takes the tables by value
 and returns no table, so none of them can change the store.
 */
module Middleware {
  import opened JsValues
  import opened JsParseInt
  import opened Express
  import opened Store

  const UserEditInvalid := "user edits require a change to email, user_lat and/or user_long"
  const TruckInvalid := "truck creation failed due to invalid truck object"
  const ItemInvalid := "item creation failed due to invalid item object"
  const PhotoInvalid := "photo upload failed due to invalid photo object"
  const TruckRatingInvalid := "truck rating creation failed due to invalid truck rating object"
  const ItemRatingInvalid := "item rating creation failed due to invalid item rating object"
  const FavoriteInvalid := "truck not added to favorites due to missing property"
  const TruckIdMismatch := "truck id in body must match params in path"
  const ItemIdMismatch := "item id in body must match params in path"

  // ---------------------------------------------------------------------
  // Required-field validators
  // ---------------------------------------------------------------------

  /**
   `if (f1 && f2 && ...) next() else 422`: the fields are tested in order
   and the first falsy one ends the test.
   */
  function RequireAll(req: Request, fields: seq<string>, message: string): (r: Outcome)
    ensures r == Next <==> forall i :: 0 <= i < |fields| ==> Truthy(Field(req, fields[i]))
    ensures r != Next ==> r == Respond(422, message)
  {
    if |fields| == 0 then Next
    else if !Truthy(Field(req, fields[0])) then Respond(422, message)
    else
      var r := RequireAll(req, fields[1..], message);
      assert forall i :: 0 < i < |fields| ==> fields[i] == fields[1..][i - 1];
      r
  }

  function CheckValidTruck(req: Request): (r: Outcome)
    ensures r == Next <==>
      && Truthy(Field(req, "truck_name"))
      && Truthy(Field(req, "truck_description"))
      && Truthy(Field(req, "open_time"))
      && Truthy(Field(req, "close_time"))
      && Truthy(Field(req, "cuisine"))
      && Truthy(Field(req, "user_id"))
    ensures r != Next ==> r == Respond(422, TruckInvalid)
  {
    var fields := ["truck_name", "truck_description", "open_time", "close_time", "cuisine", "user_id"];
    var r := RequireAll(req, fields, TruckInvalid);
    assert fields[0] == "truck_name" && fields[1] == "truck_description" && fields[2] == "open_time";
    assert fields[3] == "close_time" && fields[4] == "cuisine" && fields[5] == "user_id";
    r
  }

  function CheckValidItem(req: Request): (r: Outcome)
    ensures r == Next <==>
      && Truthy(Field(req, "item_name"))
      && Truthy(Field(req, "item_description"))
      && Truthy(Field(req, "item_price"))
      && Truthy(Field(req, "truck_id"))
    ensures r != Next ==> r == Respond(422, ItemInvalid)
  {
    var fields := ["item_name", "item_description", "item_price", "truck_id"];
    var r := RequireAll(req, fields, ItemInvalid);
    assert fields[0] == "item_name" && fields[1] == "item_description";
    assert fields[2] == "item_price" && fields[3] == "truck_id";
    r
  }

  function CheckValidPhoto(req: Request): (r: Outcome)
    ensures r == Next <==>
      && Truthy(Field(req, "photo_url"))
      && Truthy(Field(req, "item_id"))
      && Truthy(Field(req, "user_id"))
    ensures r != Next ==> r == Respond(422, PhotoInvalid)
  {
    var fields := ["photo_url", "item_id", "user_id"];
    var r := RequireAll(req, fields, PhotoInvalid);
    assert fields[0] == "photo_url" && fields[1] == "item_id" && fields[2] == "user_id";
    r
  }

  function CheckValidTruckRating(req: Request): (r: Outcome)
    ensures r == Next <==>
      && Truthy(Field(req, "user_id"))
      && Truthy(Field(req, "truck_id"))
      && Truthy(Field(req, "truck_rating"))
    ensures r != Next ==> r == Respond(422, TruckRatingInvalid)
  {
    var fields := ["user_id", "truck_id", "truck_rating"];
    var r := RequireAll(req, fields, TruckRatingInvalid);
    assert fields[0] == "user_id" && fields[1] == "truck_id" && fields[2] == "truck_rating";
    r
  }

  function CheckValidItemRating(req: Request): (r: Outcome)
    ensures r == Next <==>
      && Truthy(Field(req, "user_id"))
      && Truthy(Field(req, "item_id"))
      && Truthy(Field(req, "item_rating"))
    ensures r != Next ==> r == Respond(422, ItemRatingInvalid)
  {
    var fields := ["user_id", "item_id", "item_rating"];
    var r := RequireAll(req, fields, ItemRatingInvalid);
    assert fields[0] == "user_id" && fields[1] == "item_id" && fields[2] == "item_rating";
    r
  }

  function CheckValidFavorite(req: Request): (r: Outcome)
    ensures r == Next <==> Truthy(Field(req, "user_id")) && Truthy(Field(req, "truck_id"))
    ensures r != Next ==> r == Respond(422, FavoriteInvalid)
  {
    var fields := ["user_id", "truck_id"];
    var r := RequireAll(req, fields, FavoriteInvalid);
    assert fields[0] == "user_id" && fields[1] == "truck_id";
    r
  }

  /**
   `checkValidUserEdit`: passes when at least one of the three editable
   fields is truthy, and then attaches exactly those three fields, falsy
   ones included, to the request; nothing else about the request changes.
   */
  function CheckValidUserEdit(req: Request): (r: (Outcome, Request))
    ensures r.0 == Next <==>
      Truthy(Field(req, "email")) || Truthy(Field(req, "user_lat")) || Truthy(Field(req, "user_long"))
    ensures r.0 == Next ==>
      r.1 == req.(userEdits := Some(UserEdits(Field(req, "email"), Field(req, "user_lat"), Field(req, "user_long"))))
    ensures r.0 != Next ==> r.0 == Respond(422, UserEditInvalid) && r.1 == req
  {
    var email := Field(req, "email");
    var lat := Field(req, "user_lat");
    var long := Field(req, "user_long");
    if Truthy(email) || Truthy(lat) || Truthy(long) then
      (Next, req.(userEdits := Some(UserEdits(email, lat, long))))
    else
      (Respond(422, UserEditInvalid), req)
  }

  /**
   As written, `checkValidUserEdit` treats a coordinate of 0 as absent: a
   user on the equator or the prime meridian cannot send that coordinate
   on its own.
   */
  lemma ZeroLatitudeEditRejected(req: Request)
    requires req.body == map["user_lat" := Num(0.0)]
    ensures CheckValidUserEdit(req).0 == Respond(422, UserEditInvalid)
  {
    assert Field(req, "email") == Undefined && Field(req, "user_long") == Undefined;
  }

  /** A field the body actually supplies: neither absent nor `null`. */
  predicate Supplied(v: JsVal)
  {
    v != Undefined && v != Null
  }

  /**
   The user-edit gate with the presence test the message describes: it
   passes when the body supplies at least one of the three fields, whatever
   its value, and attaches the same three fields.
   */
  function CheckSuppliedUserEdit(req: Request): (r: (Outcome, Request))
    ensures r.0 == Next <==>
      Supplied(Field(req, "email")) || Supplied(Field(req, "user_lat")) || Supplied(Field(req, "user_long"))
    ensures r.0 == Next ==>
      r.1 == req.(userEdits := Some(UserEdits(Field(req, "email"), Field(req, "user_lat"), Field(req, "user_long"))))
    ensures r.0 != Next ==> r.0 == Respond(422, UserEditInvalid) && r.1 == req
  {
    var email := Field(req, "email");
    var lat := Field(req, "user_lat");
    var long := Field(req, "user_long");
    if Supplied(email) || Supplied(lat) || Supplied(long) then
      (Next, req.(userEdits := Some(UserEdits(email, lat, long))))
    else
      (Respond(422, UserEditInvalid), req)
  }

  /**
   The corrected gate accepts every edit the original accepts, with the same
   effect on the request, and also the zero-coordinate edits it refuses.
   */
  lemma SuppliedUserEditExtendsOriginal(req: Request)
    ensures CheckValidUserEdit(req).0 == Next ==> CheckSuppliedUserEdit(req) == CheckValidUserEdit(req)
    ensures Field(req, "user_lat") == Num(0.0) ==>
      CheckSuppliedUserEdit(req).0 == Next
  {
  }

  // ---------------------------------------------------------------------
  // Existence gates
  // ---------------------------------------------------------------------

  /**
   `db(table).where(key, req.params[param]).first()`, then `next()` on a
   row and 404 "could not find <noun> with id <param>" otherwise.
   */
  function ExistsGate<R>(req: Request, param: string, noun: string, rows: seq<R>, key: R -> int): (r: Outcome)
    ensures param !in req.params ==> r == Fail(UndefinedBinding)
    ensures param in req.params ==>
      (r == Next <==> exists i :: 0 <= i < |rows| && IntKeyMatches(key(rows[i]), Str(req.params[param])))
    ensures param in req.params && r != Next ==>
      r == Respond(404, "could not find " + noun + " with id " + req.params[param])
  {
    var id := Param(req, param);
    match Where(rows, [id], (row: R) => IntKeyMatches(key(row), id))
    case BindingError => Fail(UndefinedBinding)
    case Found => Next
    case Missing => Respond(404, "could not find " + noun + " with id " + id.s)
  }

  function CheckTruckExists(req: Request, db: Db): (r: Outcome)
    ensures "truck_id" !in req.params ==> r.Fail?
    ensures "truck_id" in req.params ==>
      (r == Next <==> exists i :: 0 <= i < |db.trucks| && IntKeyMatches(db.trucks[i].truckId, Str(req.params["truck_id"])))
    ensures "truck_id" in req.params && r != Next ==>
      r == Respond(404, "could not find truck with id " + req.params["truck_id"])
  {
    ExistsGate(req, "truck_id", "truck", db.trucks, (t: TruckRow) => t.truckId)
  }

  function CheckItemExists(req: Request, db: Db): (r: Outcome)
    ensures "item_id" !in req.params ==> r.Fail?
    ensures "item_id" in req.params ==>
      (r == Next <==> exists i :: 0 <= i < |db.items| && IntKeyMatches(db.items[i].itemId, Str(req.params["item_id"])))
    ensures "item_id" in req.params && r != Next ==>
      r == Respond(404, "could not find item with id " + req.params["item_id"])
  {
    ExistsGate(req, "item_id", "item", db.items, (t: ItemRow) => t.itemId)
  }

  function CheckPhotoExists(req: Request, db: Db): (r: Outcome)
    ensures "photo_id" !in req.params ==> r.Fail?
    ensures "photo_id" in req.params ==>
      (r == Next <==> exists i :: 0 <= i < |db.photos| && IntKeyMatches(db.photos[i].photoId, Str(req.params["photo_id"])))
    ensures "photo_id" in req.params && r != Next ==>
      r == Respond(404, "could not find photo with id " + req.params["photo_id"])
  {
    ExistsGate(req, "photo_id", "photo", db.photos, (t: PhotoRow) => t.photoId)
  }

  /**
   A row is found by the decimal text of its key, and a key held by no row
   is reported missing with that key echoed in the message. This holds for
   the truck, item and photo gates alike.
   */
  lemma DecimalKeyFoundIffPresent<R>(req: Request, param: string, noun: string, rows: seq<R>, key: R -> int, k: int)
    requires param in req.params && req.params[param] == IntToDecimal(k)
    ensures ExistsGate(req, param, noun, rows, key) == Next <==> exists i :: 0 <= i < |rows| && key(rows[i]) == k
    ensures ExistsGate(req, param, noun, rows, key) != Next ==>
      ExistsGate(req, param, noun, rows, key) == Respond(404, "could not find " + noun + " with id " + IntToDecimal(k))
  {
    forall col: int {
      DecimalTextSelectsKey(col, k);
    }
  }

  // ---------------------------------------------------------------------
  // Body-id / path-id match gates
  // ---------------------------------------------------------------------

  /** `req.body[field] === parseInt(req.params[field])`, else 422. */
  function IdsMatchGate(req: Request, field: string, message: string): (r: Outcome)
    ensures r == Next <==> StrictEqualsParsed(Field(req, field), ParamInt(req, field))
    ensures r != Next ==> r == Respond(422, message)
  {
    if StrictEqualsParsed(Field(req, field), ParamInt(req, field)) then Next
    else Respond(422, message)
  }

  function CheckTruckIdsMatch(req: Request): (r: Outcome)
    ensures r == Next <==>
      "truck_id" in req.params && ParseInt(req.params["truck_id"]).Some?
      && Field(req, "truck_id") == Num(ParseInt(req.params["truck_id"]).value as real)
    ensures Field(req, "truck_id").Str? ==> r == Respond(422, TruckIdMismatch)
    ensures r != Next ==> r == Respond(422, TruckIdMismatch)
  {
    IdsMatchGate(req, "truck_id", TruckIdMismatch)
  }

  function CheckItemIdsMatch(req: Request): (r: Outcome)
    ensures r == Next <==>
      "item_id" in req.params && ParseInt(req.params["item_id"]).Some?
      && Field(req, "item_id") == Num(ParseInt(req.params["item_id"]).value as real)
    ensures Field(req, "item_id").Str? ==> r == Respond(422, ItemIdMismatch)
    ensures r != Next ==> r == Respond(422, ItemIdMismatch)
  {
    IdsMatchGate(req, "item_id", ItemIdMismatch)
  }

  /**
   A numeric body id passes against the decimal text of the same id in the
   path, followed by anything that is not a further digit; any other number
   in the body, and any body id that is not a number, is rejected.
   */
  lemma TruckIdsMatchDecimalPath(req: Request, n: int, rest: string)
    requires "truck_id" in req.params && req.params["truck_id"] == IntToDecimal(n) + rest
    requires rest == [] || !IsDecimalDigit(rest[0])
    requires n == 0 ==> rest == [] || (rest[0] != 'x' && rest[0] != 'X')
    ensures CheckTruckIdsMatch(req) == Next <==> Field(req, "truck_id") == Num(n as real)
  {
    ParseIntDecimalPrefix(n, rest);
  }

  lemma ItemIdsMatchDecimalPath(req: Request, n: int, rest: string)
    requires "item_id" in req.params && req.params["item_id"] == IntToDecimal(n) + rest
    requires rest == [] || !IsDecimalDigit(rest[0])
    requires n == 0 ==> rest == [] || (rest[0] != 'x' && rest[0] != 'X')
    ensures CheckItemIdsMatch(req) == Next <==> Field(req, "item_id") == Num(n as real)
  {
    ParseIntDecimalPrefix(n, rest);
  }

  /** A path id without any decimal digit parses to NaN, which no body id equals. */
  lemma NonNumericPathRejected(req: Request, field: string, message: string)
    requires field in req.params
    requires forall i :: 0 <= i < |req.params[field]| ==> !IsDecimalDigit(req.params[field][i])
    ensures IdsMatchGate(req, field, message) == Respond(422, message)
  {
    ParseIntWithoutDigits(req.params[field]);
  }

  // ---------------------------------------------------------------------
  // Rating / favorite gates
  // ---------------------------------------------------------------------

  /** What distinguishes the three rating/favorite gates: names and messages. */
  datatype PairTable = PairTable(targetField: string, idParam: string, noun: string, duplicate: string)

  const TruckRatingTable := PairTable("truck_id", "truck_rating_id", "truck rating", "truck rating already exists")
  const ItemRatingTable := PairTable("item_id", "item_rating_id", "item rating", "item rating already exists")
  const FavoriteTable := PairTable("truck_id", "favorite_id", "favorite", "truck favorite already exists")

  /** Some row holds the (target, user) pair the body names. */
  predicate HasPair(rows: seq<PairRow>, target: JsVal, user: JsVal)
  {
    exists i :: 0 <= i < |rows| && IntKeyMatches(rows[i].targetId, target) && IntKeyMatches(rows[i].userId, user)
  }

  /** Some row has the primary key the path names. */
  predicate HasRowId(rows: seq<PairRow>, id: JsVal)
  {
    exists i :: 0 <= i < |rows| && IntKeyMatches(rows[i].rowId, id)
  }

  /**
   On POST: reject with 422 when a row already holds the body's (target,
   user) pair, else `next()`. On PUT: `next()` when a row has the path's own
   key, else 404. Any other method: neither.
   */
  function PairGate(req: Request, t: PairTable, rows: seq<PairRow>): (r: Outcome)
    ensures req.verb == "POST" && (Field(req, t.targetField) == Undefined || Field(req, "user_id") == Undefined) ==>
      r == Fail(UndefinedBinding)
    ensures req.verb == "POST" && Field(req, t.targetField) != Undefined && Field(req, "user_id") != Undefined ==>
      && (r == Respond(422, t.duplicate) <==> HasPair(rows, Field(req, t.targetField), Field(req, "user_id")))
      && (r == Next <==> !HasPair(rows, Field(req, t.targetField), Field(req, "user_id")))
    ensures req.verb == "PUT" && t.idParam !in req.params ==> r == Fail(UndefinedBinding)
    ensures req.verb == "PUT" && t.idParam in req.params ==>
      && (r == Next <==> HasRowId(rows, Str(req.params[t.idParam])))
      && (r != Next ==> r == Respond(404, "could not find " + t.noun + " with id " + req.params[t.idParam]))
    ensures req.verb != "POST" && req.verb != "PUT" ==> r == Idle
  {
    if req.verb == "POST" then
      var target := Field(req, t.targetField);
      var user := Field(req, "user_id");
      match Where(rows, [target, user], (row: PairRow) => IntKeyMatches(row.targetId, target) && IntKeyMatches(row.userId, user))
      case BindingError => Fail(UndefinedBinding)
      case Found => Respond(422, t.duplicate)
      case Missing => Next
    else if req.verb == "PUT" then
      var id := Param(req, t.idParam);
      match Where(rows, [id], (row: PairRow) => IntKeyMatches(row.rowId, id))
      case BindingError => Fail(UndefinedBinding)
      case Found => Next
      case Missing => Respond(404, "could not find " + t.noun + " with id " + id.s)
    else Idle
  }

  function CheckTruckRatingExists(req: Request, db: Db): (r: Outcome)
    ensures req.verb == "POST" && Field(req, "truck_id") != Undefined && Field(req, "user_id") != Undefined ==>
      (r == Respond(422, "truck rating already exists") <==> HasPair(db.truckRatings, Field(req, "truck_id"), Field(req, "user_id")))
      && (r == Next <==> !HasPair(db.truckRatings, Field(req, "truck_id"), Field(req, "user_id")))
    ensures req.verb == "PUT" && "truck_rating_id" in req.params ==>
      (r == Next <==> HasRowId(db.truckRatings, Str(req.params["truck_rating_id"])))
      && (r != Next ==> r == Respond(404, "could not find truck rating with id " + req.params["truck_rating_id"]))
    ensures req.verb != "POST" && req.verb != "PUT" ==> r == Idle
  {
    assert "could not find " + TruckRatingTable.noun + " with id " == "could not find truck rating with id ";
    PairGate(req, TruckRatingTable, db.truckRatings)
  }

  /**
   The database's error when a query names a column its table does not
   have; the exact wording is the engine's.
   */
  const TruckRatingsLackUserId := "truck_ratings has no column user_id"

  /**
   `checkTruckRatingExists` against `truck_ratings` as the migration
   creates it, with no `user_id` column: once the query compiles, the POST
   lookup by (truck_id, user_id) raises instead of answering. PUT reads only
   the row key and behaves as on the full table.
   */
  function CheckTruckRatingExistsAsMigrated(req: Request, db: Db): (r: Outcome)
    ensures req.verb == "POST" && (Field(req, "truck_id") == Undefined || Field(req, "user_id") == Undefined) ==>
      r == Fail(UndefinedBinding)
    ensures req.verb == "POST" && Field(req, "truck_id") != Undefined && Field(req, "user_id") != Undefined ==>
      r == Fail(TruckRatingsLackUserId)
    ensures req.verb != "POST" ==> r == CheckTruckRatingExists(req, db)
  {
    if req.verb == "POST" then
      if Field(req, "truck_id") == Undefined || Field(req, "user_id") == Undefined then Fail(UndefinedBinding)
      else Fail(TruckRatingsLackUserId)
    else CheckTruckRatingExists(req, db)
  }

  /**
   On the migrated table, a repeated truck rating is never refused with 422
   "truck rating already exists": the POST raises, where the gate on a
   table with `user_id` answers 422.
   */
  lemma {:induction false} MigratedTruckRatingPostRaises(req: Request, db: Db, row: PairRow)
    requires req.verb == "POST"
    requires Field(req, "truck_id") == Num(row.targetId as real)
    requires Field(req, "user_id") == Num(row.userId as real)
    ensures CheckTruckRatingExistsAsMigrated(req, db.(truckRatings := db.truckRatings + [row])).Fail?
    ensures CheckTruckRatingExists(req, db.(truckRatings := db.truckRatings + [row]))
      == Respond(422, "truck rating already exists")
  {
    RepeatedPostRejected(req, TruckRatingTable, db.truckRatings, row);
  }

  function CheckItemRatingExists(req: Request, db: Db): (r: Outcome)
    ensures req.verb == "POST" && Field(req, "item_id") != Undefined && Field(req, "user_id") != Undefined ==>
      (r == Respond(422, "item rating already exists") <==> HasPair(db.itemRatings, Field(req, "item_id"), Field(req, "user_id")))
      && (r == Next <==> !HasPair(db.itemRatings, Field(req, "item_id"), Field(req, "user_id")))
    ensures req.verb == "PUT" && "item_rating_id" in req.params ==>
      (r == Next <==> HasRowId(db.itemRatings, Str(req.params["item_rating_id"])))
      && (r != Next ==> r == Respond(404, "could not find item rating with id " + req.params["item_rating_id"]))
    ensures req.verb != "POST" && req.verb != "PUT" ==> r == Idle
  {
    assert "could not find " + ItemRatingTable.noun + " with id " == "could not find item rating with id ";
    PairGate(req, ItemRatingTable, db.itemRatings)
  }

  function CheckFavoriteExists(req: Request, db: Db): (r: Outcome)
    ensures req.verb == "POST" && Field(req, "truck_id") != Undefined && Field(req, "user_id") != Undefined ==>
      (r == Respond(422, "truck favorite already exists") <==> HasPair(db.favorites, Field(req, "truck_id"), Field(req, "user_id")))
      && (r == Next <==> !HasPair(db.favorites, Field(req, "truck_id"), Field(req, "user_id")))
    ensures req.verb == "PUT" && "favorite_id" in req.params ==>
      (r == Next <==> HasRowId(db.favorites, Str(req.params["favorite_id"])))
      && (r != Next ==> r == Respond(404, "could not find favorite with id " + req.params["favorite_id"]))
    ensures req.verb != "POST" && req.verb != "PUT" ==> r == Idle
  {
    assert "could not find " + FavoriteTable.noun + " with id " == "could not find favorite with id ";
    PairGate(req, FavoriteTable, db.favorites)
  }

  /**
   Creating a pair and POSTing it again is rejected: once `row` is in the
   table, a POST naming its (target, user) pair gets 422 "already exists".
   */
  lemma {:induction false} RepeatedPostRejected(req: Request, t: PairTable, rows: seq<PairRow>, row: PairRow)
    requires req.verb == "POST"
    requires Field(req, t.targetField) == Num(row.targetId as real)
    requires Field(req, "user_id") == Num(row.userId as real)
    ensures PairGate(req, t, rows + [row]) == Respond(422, t.duplicate)
  {
    var all := rows + [row];
    assert all[|rows|] == row;
    assert HasPair(all, Field(req, t.targetField), Field(req, "user_id"));
  }

  /**
   The PUT branch looks only at the path's own key: two PUT requests with
   the same path parameters get the same outcome whatever their bodies say.
   */
  lemma PutIgnoresBody(req1: Request, req2: Request, t: PairTable, rows: seq<PairRow>)
    requires req1.verb == "PUT" && req2.verb == "PUT"
    requires req1.params == req2.params
    ensures PairGate(req1, t, rows) == PairGate(req2, t, rows)
  {
  }

  /**
   POST and PUT have opposite polarity on the same table: for a stored row,
   a POST naming its pair is rejected while a PUT naming its key passes.
   */
  lemma {:induction false} PostPutPolarity(post: Request, put: Request, t: PairTable, rows: seq<PairRow>, i: nat)
    requires i < |rows|
    requires post.verb == "POST" && put.verb == "PUT"
    requires Field(post, t.targetField) == Num(rows[i].targetId as real)
    requires Field(post, "user_id") == Num(rows[i].userId as real)
    requires t.idParam in put.params && put.params[t.idParam] == IntToDecimal(rows[i].rowId)
    ensures PairGate(post, t, rows) == Respond(422, t.duplicate)
    ensures PairGate(put, t, rows) == Next
  {
    assert HasPair(rows, Field(post, t.targetField), Field(post, "user_id"));
    DecimalTextSelectsKey(rows[i].rowId, rows[i].rowId);
    assert HasRowId(rows, Param(put, t.idParam));
  }

  /**
   Run after its validator, a rating/favorite gate's POST query never meets
   an `undefined` binding: the validator has already required both fields.
   */
  lemma ValidatedRatingNeverFaults(req: Request, db: Db)
    requires req.verb == "POST"
    requires CheckValidTruckRating(req) == Next
    ensures CheckTruckRatingExists(req, db) == Respond(422, "truck rating already exists")
      || CheckTruckRatingExists(req, db) == Next
  {
  }

  lemma ValidatedFavoriteNeverFaults(req: Request, db: Db)
    requires req.verb == "POST"
    requires CheckValidFavorite(req) == Next
    ensures CheckFavoriteExists(req, db) == Respond(422, "truck favorite already exists")
      || CheckFavoriteExists(req, db) == Next
  {
  }
}
