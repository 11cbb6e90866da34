/**
 * The paste HTTP handlers with the transport taken away: each handler is a
 * function from what it reads (the path parameter, the `pw` query value, the
 * clock, the paste table or the service's result) to the one response it
 * writes, given as status, message and body.
 */
module PasteHandlers {
  import opened Wrappers
  import opened Errors
  import opened Pastes
  import opened PasteRepository
  import opened PasteService
  import opened Bcrypt

  const MaxUint64: nat := 0xFFFF_FFFF_FFFF_FFFF

  // ---------------------------------------------------------------------------
  // strconv.ParseUint(s, 10, 64)

  predicate IsDigit(c: char) {
    '0' <= c <= '9'
  }

  predicate AllDigits(s: string) {
    forall i :: 0 <= i < |s| ==> IsDigit(s[i])
  }

  /** The number a string of decimal digits spells, leading zeros allowed. */
  function DecimalValue(s: string): nat
    requires AllDigits(s)
  {
    if s == [] then 0 else DecimalValue(s[..|s| - 1]) * 10 + (s[|s| - 1] as int - '0' as int)
  }

  /** Accepts a non-empty string of decimal digits whose value fits 64 bits; no sign, no underscore, no space. */
  function ParseUint64(s: string): (r: Option<uint64>)
    ensures r.Some? <==> s != [] && AllDigits(s) && DecimalValue(s) <= MaxUint64
    ensures r.Some? ==> r.value == DecimalValue(s)
  {
    if s == [] || !AllDigits(s) then None
    else if DecimalValue(s) > MaxUint64 then None
    else Some(DecimalValue(s))
  }

  /** strconv.FormatUint(n, 10): the shortest decimal spelling of n. */
  function FormatUint(n: nat): (s: string)
    ensures s != [] && AllDigits(s)
  {
    var last := [('0' as int + n % 10) as char];
    if n < 10 then last else FormatUint(n / 10) + last
  }

  lemma {:induction false} DecimalValueOfFormat(n: nat)
    ensures DecimalValue(FormatUint(n)) == n
  {
    var s := FormatUint(n);
    if n >= 10 {
      DecimalValueOfFormat(n / 10);
      assert s[..|s| - 1] == FormatUint(n / 10);
    }
  }

  /** Every uint64 id, written in decimal, parses back to itself. */
  lemma ParseFormatted(n: uint64)
    ensures ParseUint64(FormatUint(n)) == Some(n)
  {
    DecimalValueOfFormat(n);
  }

  /** A number that does not fit 64 bits is refused, however it is spelled. */
  lemma ParseRejectsOverflow(n: nat)
    requires n > MaxUint64
    ensures ParseUint64(FormatUint(n)).None?
  {
    DecimalValueOfFormat(n);
  }

  // ---------------------------------------------------------------------------
  // IsPasteExpired

  /** A zero ExpiresAt means "never"; otherwise the paste is expired once `now` is strictly after ExpiresAt. */
  function IsPasteExpired(paste: Paste, now: Time): (expired: bool)
    ensures paste.expiresAt == ZeroTime ==> !expired
    ensures paste.expiresAt != ZeroTime ==> (expired <==> now > paste.expiresAt)
  {
    if paste.expiresAt == ZeroTime then false
    else now > paste.expiresAt
  }

  /** At the instant of expiry a paste is still readable; from the next instant on it is not. */
  lemma ExpiryIsStrict(paste: Paste)
    requires paste.expiresAt != ZeroTime
    ensures !IsPasteExpired(paste, paste.expiresAt)
    ensures forall later :: later > paste.expiresAt ==> IsPasteExpired(paste, later)
  {
  }

  // ---------------------------------------------------------------------------
  // Responses

  datatype Body = NoBody | PasteBody(data: PasteJson) | ListBody(pastes: seq<PasteJson>, count: nat) | IdBody(id: uint64)

  datatype Response = Response(status: int, message: string, body: Body)

  const StatusOK := 200
  const StatusCreated := 201
  const StatusBadRequest := 400
  const StatusUnauthorized := 401
  const StatusForbidden := 403
  const StatusNotFound := 404
  const StatusInternalError := 500

  const MsgInvalidId := "Invalid paste ID format"
  const MsgInvalidData := "Invalid paste data format"
  const MsgNotFound := "Paste not found"
  const MsgExpired := "This paste has expired and is no longer available"
  const MsgPrivate := "This is a private paste. Please use the private access ID to view it."
  const MsgVerifyError := "Error verifying password"
  const MsgInvalidPassword := "Invalid password"
  const MsgRetrieved := "Paste retrieved successfully"
  const MsgCreateFailed := "Failed to create paste"
  const MsgCreated := "Paste created successfully"
  const MsgUpdateFailed := "Failed to update paste"
  const MsgUpdated := "Paste updated successfully"
  const MsgDeleteFailed := "Paste not found or could not be deleted"
  const MsgDeleted := "Paste deleted successfully"
  const MsgListFailed := "Failed to retrieve pastes"
  const MsgListed := "Pastes retrieved successfully"

  predicate IsReadStatus(s: int) {
    s == StatusOK || s == StatusBadRequest || s == StatusUnauthorized || s == StatusForbidden
    || s == StatusNotFound || s == StatusInternalError
  }

  // ---------------------------------------------------------------------------
  // GetPaste and GetPasteByPrivateAccessID

  /** Which route loaded the paste: by its id, or by its private access token. */
  datatype Path = ById | ByToken

  /**
   * The checks both read handlers run on a loaded paste, first failing check
   * first: expiry; then, on the id route only, privacy; then the password,
   * verified by the service, which loads the paste again by its id.
   */
  function Gate(t: Table, paste: Paste, path: Path, now: Time, pw: string): (o: Response)
    ensures IsPasteExpired(paste, now) ==> o == Response(StatusNotFound, MsgExpired, NoBody)
    ensures o.status == StatusNotFound <==> IsPasteExpired(paste, now)
    ensures o.status == StatusForbidden <==> !IsPasteExpired(paste, now) && path == ById && paste.privacy == Private
    ensures o.status == StatusForbidden ==> o == Response(StatusForbidden, MsgPrivate, NoBody)
    ensures o.status == StatusOK <==>
              && !IsPasteExpired(paste, now)
              && !(path == ById && paste.privacy == Private)
              && (paste.password != "" ==> pw != "" && PasswordVerdict(t, paste.id, pw) == Ok(true))
    ensures o.status == StatusOK ==> o == Response(StatusOK, MsgRetrieved, PasteBody(ToJson(paste)))
    ensures o.status == StatusUnauthorized <==>
              && !IsPasteExpired(paste, now)
              && !(path == ById && paste.privacy == Private)
              && paste.password != ""
              && (pw == "" || PasswordVerdict(t, paste.id, pw) == Ok(false))
    ensures o.status == StatusUnauthorized && pw == "" ==> o.message == MsgVerifyError
    ensures o.status == StatusUnauthorized && pw != "" ==> o.message == MsgInvalidPassword
    ensures o.status == StatusInternalError <==>
              && !IsPasteExpired(paste, now)
              && !(path == ById && paste.privacy == Private)
              && paste.password != "" && pw != "" && PasswordVerdict(t, paste.id, pw).Err?
    ensures o.status == StatusInternalError ==> o == Response(StatusInternalError, MsgVerifyError, NoBody)
    ensures IsReadStatus(o.status)
  {
    if IsPasteExpired(paste, now) then Response(StatusNotFound, MsgExpired, NoBody)
    else if path == ById && paste.privacy == Private then Response(StatusForbidden, MsgPrivate, NoBody)
    else if paste.password != "" && pw == "" then Response(StatusUnauthorized, MsgVerifyError, NoBody)
    else if paste.password != "" && PasswordVerdict(t, paste.id, pw).Err? then
      Response(StatusInternalError, MsgVerifyError, NoBody)
    else if paste.password != "" && PasswordVerdict(t, paste.id, pw) == Ok(false) then
      Response(StatusUnauthorized, MsgInvalidPassword, NoBody)
    else Response(StatusOK, MsgRetrieved, PasteBody(ToJson(paste)))
  }

  /** GET /paste/:id */
  function GetPaste(t: Table, idStr: string, now: Time, pw: string): (o: Response)
    requires WellKeyed(t)
    ensures ParseUint64(idStr).None? ==> o == Response(StatusBadRequest, MsgInvalidId, NoBody)
    ensures ParseUint64(idStr).Some? && ParseUint64(idStr).value !in t ==>
              o == Response(StatusNotFound, MsgNotFound, NoBody)
    ensures ParseUint64(idStr).Some? && ParseUint64(idStr).value in t ==>
              o == Gate(t, t[ParseUint64(idStr).value], ById, now, pw)
    ensures o.status == StatusOK ==>
              var id := ParseUint64(idStr).value;
              && id in t
              && o.body == PasteBody(ToJson(t[id]))
              && !IsPasteExpired(t[id], now)
              && t[id].privacy != Private
              && (t[id].password != "" ==> CheckPassword(t[id].password, pw) == Ok(true))
    ensures o.status == StatusOK ==> o.body.PasteBody? && o.body.data.privacy != Private
    ensures IsReadStatus(o.status)
  {
    match ParseUint64(idStr)
    case None => Response(StatusBadRequest, MsgInvalidId, NoBody)
    case Some(id) =>
      match FindByID(t, id)
      case Err(_) => Response(StatusNotFound, MsgNotFound, NoBody)
      case Ok(paste) => Gate(t, paste, ById, now, pw)
  }

  /** GET /paste/private/:accessId — the same chain without the privacy check. */
  function GetPasteByPrivateAccessID(t: Table, accessId: string, now: Time, pw: string): (o: Response)
    requires WellKeyed(t)
    ensures FindByToken(t, accessId).Err? ==> o == Response(StatusNotFound, MsgNotFound, NoBody)
    ensures FindByToken(t, accessId).Ok? ==> o == Gate(t, FindByToken(t, accessId).value, ByToken, now, pw)
    ensures o.status == StatusOK ==>
              var paste := FindByToken(t, accessId).value;
              && paste.privateAccessId == accessId
              && o.body == PasteBody(ToJson(paste))
              && !IsPasteExpired(paste, now)
              && (paste.password != "" ==> CheckPassword(paste.password, pw) == Ok(true))
    ensures o.status != StatusForbidden
    ensures IsReadStatus(o.status)
  {
    match FindByToken(t, accessId)
    case Err(_) => Response(StatusNotFound, MsgNotFound, NoBody)
    case Ok(paste) =>
      FoundByTokenIsStored(t, accessId);
      Gate(t, paste, ByToken, now, pw)
  }

  /** The response of GET /paste/:id for a stored paste, named by its id. */
  function ReadById(t: Table, id: uint64, now: Time, pw: string): Response
    requires WellKeyed(t)
  {
    GetPaste(t, FormatUint(id), now, pw)
  }

  /**
   * An expired paste is "not found" by id, whatever its privacy and whatever
   * password is supplied; so it is by its token, when no other row holds it.
   */
  lemma ExpiredHiddenOnReads(t: Table, id: uint64, now: Time, pw: string)
    requires WellKeyed(t) && id in t && IsPasteExpired(t[id], now)
    ensures ReadById(t, id, now, pw) == Response(StatusNotFound, MsgExpired, NoBody)
    ensures (forall k :: k in t && k != id ==> t[k].privateAccessId != t[id].privateAccessId) ==>
              GetPasteByPrivateAccessID(t, t[id].privateAccessId, now, pw)
              == Response(StatusNotFound, MsgExpired, NoBody)
  {
    ParseFormatted(id);
    if forall k :: k in t && k != id ==> t[k].privateAccessId != t[id].privateAccessId {
      UniqueTokenFindsItsRow(t, id);
    }
  }

  /**
   * A live private paste is refused on the id route, whatever its password
   * and whatever `pw` is supplied; without a password it is served on the
   * token route, when no other row holds its token.
   */
  lemma PrivateOnlyByToken(t: Table, id: uint64, now: Time, pw: string)
    requires WellKeyed(t) && id in t
    requires t[id].privacy == Private && !IsPasteExpired(t[id], now)
    ensures ReadById(t, id, now, pw) == Response(StatusForbidden, MsgPrivate, NoBody)
    ensures t[id].password == "" && (forall k :: k in t && k != id ==> t[k].privateAccessId != t[id].privateAccessId)
            ==> GetPasteByPrivateAccessID(t, t[id].privateAccessId, now, pw)
                == Response(StatusOK, MsgRetrieved, PasteBody(ToJson(t[id])))
  {
    ParseFormatted(id);
    if forall k :: k in t && k != id ==> t[k].privateAccessId != t[id].privateAccessId {
      UniqueTokenFindsItsRow(t, id);
    }
  }

  /**
   * A live, non-private paste whose password was set by a create or an
   * update: no `pw` and a wrong `pw` are both 401, with different messages;
   * the right one is 200.
   */
  lemma PasswordGate(t: Table, id: uint64, now: Time, password: string, wrong: string)
    requires WellKeyed(t) && id in t
    requires t[id].privacy != Private && !IsPasteExpired(t[id], now)
    requires password != "" && t[id].password != password && HashOf(t[id].password, password)
    requires wrong != "" && wrong != password
    ensures ReadById(t, id, now, "") == Response(StatusUnauthorized, MsgVerifyError, NoBody)
    ensures ReadById(t, id, now, wrong) == Response(StatusUnauthorized, MsgInvalidPassword, NoBody)
    ensures ReadById(t, id, now, password) == Response(StatusOK, MsgRetrieved, PasteBody(ToJson(t[id])))
    ensures MsgVerifyError != MsgInvalidPassword
  {
    ParseFormatted(id);
    CheckStoredHash(t[id].password, password, wrong);
    CheckStoredHash(t[id].password, password, password);
  }

  /** The `password` tier on its own gates nothing: without a stored hash, such a paste is served to anyone. */
  lemma PasswordTierWithoutPasswordIsOpen(t: Table, id: uint64, now: Time, pw: string)
    requires WellKeyed(t) && id in t
    requires t[id].privacy == PasswordTier && t[id].password == "" && !IsPasteExpired(t[id], now)
    ensures ReadById(t, id, now, pw) == Response(StatusOK, MsgRetrieved, PasteBody(ToJson(t[id])))
  {
    ParseFormatted(id);
  }

  // ---------------------------------------------------------------------------
  // CreatePaste, UpdatePaste, DeletePaste

  /**
   * The binding rules of a create request: title and content `required`
   * (non-empty), privacy `required` and one of the three tiers;
   * syntax_highlight, editor type, expiry and password are optional.
   */
  predicate CreateBinds(req: CreateRequest) {
    req.title != "" && req.content != "" && IsPrivacy(req.privacy)
  }

  /** The binding rules of an update request: those of a create, and a `required` (non-zero) id. */
  predicate UpdateBinds(req: UpdateRequest) {
    req.id != 0 && req.title != "" && req.content != "" && IsPrivacy(req.privacy)
  }

  /** A create may leave syntax_highlight out: it binds, and the column default stores "text". */
  lemma UnsetHighlightStoresText(t: Table, nextId: nat, req: CreateRequest, random: Option<RandomBlock>,
                                 salt: Option<Salt>, now: Time)
    requires WellKeyed(t) && nextId >= 1 && CreateBinds(req) && req.syntaxHighlight == ""
    requires NewPaste(req, random, salt).Ok?
    requires InsertEffect(t, nextId, NewPaste(req, random, salt).value, now).result.Ok?
    ensures var stored := InsertEffect(t, nextId, NewPaste(req, random, salt).value, now).result.value;
            stored.syntaxHighlight == DefaultSyntaxHighlight && stored.privacy == req.privacy
  {
  }

  /** POST /paste: `created` is what the service's Create returned; it is consulted only when the request binds. */
  function CreatePaste(req: CreateRequest, created: Result<Paste, Error>): (o: Response)
    ensures !CreateBinds(req) ==> o == Response(StatusBadRequest, MsgInvalidData, NoBody)
    ensures CreateBinds(req) && created.Err? ==> o == Response(StatusInternalError, MsgCreateFailed, NoBody)
    ensures o.status == StatusCreated <==> CreateBinds(req) && created.Ok?
    ensures o.status == StatusCreated ==> o == Response(StatusCreated, MsgCreated, PasteBody(ToJson(created.value)))
  {
    if !CreateBinds(req) then Response(StatusBadRequest, MsgInvalidData, NoBody)
    else if created.Err? then Response(StatusInternalError, MsgCreateFailed, NoBody)
    else Response(StatusCreated, MsgCreated, PasteBody(ToJson(created.value)))
  }

  /** PUT /paste: every service error, a missing paste included, is a 500. */
  function UpdatePaste(req: UpdateRequest, updated: Result<Paste, Error>): (o: Response)
    ensures !UpdateBinds(req) ==> o == Response(StatusBadRequest, MsgInvalidData, NoBody)
    ensures UpdateBinds(req) && updated.Err? ==> o == Response(StatusInternalError, MsgUpdateFailed, NoBody)
    ensures o.status == StatusOK <==> UpdateBinds(req) && updated.Ok?
    ensures o.status == StatusOK ==> o == Response(StatusOK, MsgUpdated, PasteBody(ToJson(updated.value)))
  {
    if !UpdateBinds(req) then Response(StatusBadRequest, MsgInvalidData, NoBody)
    else if updated.Err? then Response(StatusInternalError, MsgUpdateFailed, NoBody)
    else Response(StatusOK, MsgUpdated, PasteBody(ToJson(updated.value)))
  }

  /**
   * GET /paste/all: `listed` is what the service's GetAll returned; the page
   * and limit query parameters are parsed but do not affect the answer.
   */
  function ListPastes(listed: Result<seq<Paste>, Error>): (o: Response)
    ensures listed.Err? ==> o == Response(StatusInternalError, MsgListFailed, NoBody)
    ensures listed.Ok? ==> o.status == StatusOK && o.message == MsgListed && o.body.ListBody?
    ensures listed.Ok? ==> o.body.count == |o.body.pastes| == |listed.value|
    ensures listed.Ok? ==> forall i :: 0 <= i < |listed.value| ==> o.body.pastes[i] == ToJson(listed.value[i])
  {
    match listed
    case Err(_) => Response(StatusInternalError, MsgListFailed, NoBody)
    case Ok(pastes) =>
      var items := seq(|pastes|, i requires 0 <= i < |pastes| => ToJson(pastes[i]));
      Response(StatusOK, MsgListed, ListBody(items, |items|))
  }

  /** No listing shows a password, whatever the listed pastes store. */
  lemma ListingHidesPasswords(pastes: seq<Paste>, hashes: seq<string>)
    requires |hashes| == |pastes|
    ensures ListPastes(Ok(pastes))
         == ListPastes(Ok(seq(|pastes|, i requires 0 <= i < |pastes| => pastes[i].(password := hashes[i]))))
  {
    var other := seq(|pastes|, i requires 0 <= i < |pastes| => pastes[i].(password := hashes[i]));
    forall i | 0 <= i < |pastes| ensures ToJson(other[i]) == ToJson(pastes[i]) {
      JsonHidesPassword(pastes[i], hashes[i]);
    }
  }

  /**
   * DELETE /paste/:id: the service is called only for an id that parses;
   * `deleted` is what its Delete returned for that id.
   */
  function DeletePaste(idStr: string, deleted: Result<uint64, Error>): (o: Response)
    ensures ParseUint64(idStr).None? ==> o == Response(StatusBadRequest, MsgInvalidId, NoBody)
    ensures ParseUint64(idStr).Some? && deleted.Err? ==> o == Response(StatusNotFound, MsgDeleteFailed, NoBody)
    ensures o.status == StatusOK <==> ParseUint64(idStr).Some? && deleted.Ok?
    ensures o.status == StatusOK ==> o == Response(StatusOK, MsgDeleted, IdBody(deleted.value))
  {
    match ParseUint64(idStr)
    case None => Response(StatusBadRequest, MsgInvalidId, NoBody)
    case Some(_) =>
      match deleted
      case Err(_) => Response(StatusNotFound, MsgDeleteFailed, NoBody)
      case Ok(id) => Response(StatusOK, MsgDeleted, IdBody(id))
  }

  // ---------------------------------------------------------------------------
  // End-to-end scenarios over the store

  /**
   * Create a private paste without a password or expiry: the 201 response
   * carries a 32-character token; afterwards the id route answers 403 and the
   * token route serves the paste, provided no other row holds the same token.
   */
  lemma CreatePrivateThenRead(t: Table, nextId: nat, req: CreateRequest, random: Option<RandomBlock>,
                              salt: Option<Salt>, now: Time, later: Time, pw: string)
    requires WellKeyed(t) && nextId >= 1 && CreateBinds(req)
    requires req.privacy == Private && req.password == "" && req.expiresAt == ZeroTime
    requires NewPaste(req, random, salt).Ok?
    requires InsertEffect(t, nextId, NewPaste(req, random, salt).value, now).result.Ok?
    requires forall k :: k in t ==> t[k].privateAccessId != NewPaste(req, random, salt).value.privateAccessId
    ensures var e := InsertEffect(t, nextId, NewPaste(req, random, salt).value, now);
            var stored := e.result.value;
            && CreatePaste(req, e.result).status == StatusCreated
            && |stored.privateAccessId| == 32
            && ReadById(e.table, stored.id, later, pw) == Response(StatusForbidden, MsgPrivate, NoBody)
            && GetPasteByPrivateAccessID(e.table, stored.privateAccessId, later, pw)
               == Response(StatusOK, MsgRetrieved, PasteBody(ToJson(stored)))
  {
    var e := InsertEffect(t, nextId, NewPaste(req, random, salt).value, now);
    var stored := e.result.value;
    PrivateOnlyByToken(e.table, stored.id, later, pw);
  }

  /**
   * Create a public or `password`-tier paste with a password: reading it by id without `pw` or
   * with a wrong one is 401, with the right one 200; the response never
   * carries the hash.
   */
  lemma CreateProtectedThenRead(t: Table, nextId: nat, req: CreateRequest, random: Option<RandomBlock>,
                                salt: Option<Salt>, now: Time, later: Time, wrong: string)
    requires WellKeyed(t) && nextId >= 1 && CreateBinds(req)
    requires req.privacy != Private && req.password != "" && req.expiresAt == ZeroTime
    requires wrong != "" && wrong != req.password
    requires NewPaste(req, random, salt).Ok?
    requires InsertEffect(t, nextId, NewPaste(req, random, salt).value, now).result.Ok?
    ensures var e := InsertEffect(t, nextId, NewPaste(req, random, salt).value, now);
            var stored := e.result.value;
            && ReadById(e.table, stored.id, later, "").status == StatusUnauthorized
            && ReadById(e.table, stored.id, later, wrong).status == StatusUnauthorized
            && ReadById(e.table, stored.id, later, req.password)
               == Response(StatusOK, MsgRetrieved, PasteBody(ToJson(stored)))
  {
    var e := InsertEffect(t, nextId, NewPaste(req, random, salt).value, now);
    var stored := e.result.value;
    PasswordGate(e.table, stored.id, later, req.password, wrong);
  }

  /** A paste created already expired is "not found" on the id route. */
  lemma CreateExpiredThenRead(t: Table, nextId: nat, req: CreateRequest, random: Option<RandomBlock>,
                              salt: Option<Salt>, now: Time, pw: string)
    requires WellKeyed(t) && nextId >= 1
    requires req.expiresAt != ZeroTime && now > req.expiresAt
    requires NewPaste(req, random, salt).Ok?
    requires InsertEffect(t, nextId, NewPaste(req, random, salt).value, now).result.Ok?
    ensures var e := InsertEffect(t, nextId, NewPaste(req, random, salt).value, now);
            ReadById(e.table, e.result.value.id, now, pw) == Response(StatusNotFound, MsgExpired, NoBody)
  {
    var e := InsertEffect(t, nextId, NewPaste(req, random, salt).value, now);
    ParseFormatted(e.result.value.id);
  }
}
