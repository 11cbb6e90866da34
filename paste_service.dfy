/**
 * The paste service: it issues access tokens, hashes passwords, builds the
 * record a create or an update writes, and decides password checks.
 *
 * The random source is an input: `random` is the 16 bytes crypto/rand.Read
 * delivered (None when it failed), `salt` the salt bcrypt drew (None when
 * hashing failed), `now` the clock reading GORM stamps CreatedAt with.
 */
module PasteService {
  import opened Wrappers
  import opened Errors
  import opened Pastes
  import opened Hex
  import opened Bcrypt
  import opened PasteRepository

  const AccessIdBytes: nat := 16

  type RandomBlock = b: seq<byte> | |b| == 16 witness [0, 0, 0, 0, 0, 0, 0, 0, 0, 0, 0, 0, 0, 0, 0, 0]

  /** generatePrivateAccessID: 16 random bytes rendered as lowercase hex. */
  function GeneratePrivateAccessID(random: Option<RandomBlock>): (r: Result<string, Error>)
    ensures r.Err? <==> random.None?
    ensures r.Err? ==> r.error == RandReadFailed
    ensures r.Ok? ==> |r.value| == 2 * AccessIdBytes && IsLowerHex(r.value)
    ensures r.Ok? ==> Decode(r.value) == Some(random.value)
  {
    match random
    case None => Err(RandReadFailed)
    case Some(bytes) =>
      DecodeEncode(bytes);
      Ok(Encode(bytes))
  }

  /** hashPassword: bcrypt at the default cost; the result verifies against the password and nothing else. */
  function HashPassword(password: string, salt: Option<Salt>): (r: Result<string, Error>)
    ensures r.Err? <==> salt.None?
    ensures r.Err? ==> r.error == HashFailed
    ensures r.Ok? ==> r.value != password
    ensures r.Ok? ==> forall q :: CompareHashAndPassword(r.value, q) == if q == password then Match else Mismatch
  {
    match salt
    case None => Err(HashFailed)
    case Some(s) =>
      CompareHashAll(password, s);
      HashIsNotPlaintext(password, s);
      GenerateFromPassword(password, salt)
  }

  datatype CreateRequest = CreateRequest(
    title: string,
    content: string,
    syntaxHighlight: string,
    editorType: string,
    expiresAt: Time,
    privacy: string,
    password: string)

  datatype UpdateRequest = UpdateRequest(
    id: uint64,
    title: string,
    content: string,
    syntaxHighlight: string,
    editorType: string,
    expiresAt: Time,
    privacy: string,
    password: string)

  /** The six fields a create or an update copies from the request. */
  predicate CarriesFields(p: Paste, title: string, content: string, syntaxHighlight: string,
                          editorType: string, expiresAt: Time, privacy: string)
  {
    && p.title == title && p.content == content && p.syntaxHighlight == syntaxHighlight
    && p.editorType == editorType && p.expiresAt == expiresAt && p.privacy == privacy
  }

  /** The stored password field verifies against `password` and against nothing else. */
  ghost predicate HashOf(stored: string, password: string) {
    forall q :: CompareHashAndPassword(stored, q) == if q == password then Match else Mismatch
  }

  /** The paste a create hands to the store, or the error that stops it before the store is reached. */
  function NewPaste(req: CreateRequest, random: Option<RandomBlock>, salt: Option<Salt>): (r: Result<Paste, Error>)
    ensures r.Err? <==> (req.privacy == Private && random.None?) || (req.password != "" && salt.None?)
    ensures req.privacy == Private && random.None? ==> r == Err(RandReadFailed)
    ensures r.Ok? ==> r.value.id == 0 && r.value.createdAt == ZeroTime
    ensures r.Ok? ==> CarriesFields(r.value, req.title, req.content, req.syntaxHighlight,
                                    req.editorType, req.expiresAt, req.privacy)
    ensures r.Ok? ==> (r.value.privateAccessId != "" <==> req.privacy == Private)
    ensures r.Ok? && req.privacy == Private ==>
              && |r.value.privateAccessId| == 2 * AccessIdBytes
              && Decode(r.value.privateAccessId) == Some(random.value)
    ensures r.Ok? ==> (r.value.password == "" <==> req.password == "")
    ensures r.Ok? && req.password != "" ==>
              r.value.password != req.password && HashOf(r.value.password, req.password)
  {
    var base := Paste(0, req.title, req.content, req.syntaxHighlight, req.editorType,
                      ZeroTime, req.expiresAt, req.privacy, "", "");
    var token := if req.privacy == Private then GeneratePrivateAccessID(random) else Ok("");
    var hash := if req.password != "" then HashPassword(req.password, salt) else Ok("");
    if token.Err? then Err(token.error)
    else if hash.Err? then Err(hash.error)
    else Ok(base.(privateAccessId := token.value, password := hash.value))
  }

  /** An update must issue a token: the paste moves to private and has none yet. */
  predicate IssuesToken(existing: Paste, req: UpdateRequest) {
    req.privacy == Private && existing.privateAccessId == ""
  }

  /** The paste an update writes back over `existing`, or the error that stops it first. */
  function UpdatedPaste(existing: Paste, req: UpdateRequest, random: Option<RandomBlock>, salt: Option<Salt>)
    : (r: Result<Paste, Error>)
    ensures r.Err? <==> (IssuesToken(existing, req) && random.None?) || (req.password != "" && salt.None?)
    ensures IssuesToken(existing, req) && random.None? ==> r == Err(RandReadFailed)
    ensures r.Ok? ==> r.value.id == existing.id && r.value.createdAt == existing.createdAt
    ensures r.Ok? ==> CarriesFields(r.value, req.title, req.content, req.syntaxHighlight,
                                    req.editorType, req.expiresAt, req.privacy)
    ensures r.Ok? && existing.privateAccessId != "" ==> r.value.privateAccessId == existing.privateAccessId
    ensures r.Ok? && existing.privateAccessId == "" ==> (r.value.privateAccessId != "" <==> req.privacy == Private)
    ensures r.Ok? && IssuesToken(existing, req) ==>
              && |r.value.privateAccessId| == 2 * AccessIdBytes
              && Decode(r.value.privateAccessId) == Some(random.value)
    ensures r.Ok? && req.password == "" ==> r.value.password == existing.password
    ensures r.Ok? && req.password != "" ==>
              r.value.password != req.password && HashOf(r.value.password, req.password)
  {
    var token := if IssuesToken(existing, req) then GeneratePrivateAccessID(random)
                 else Ok(existing.privateAccessId);
    var hash := if req.password != "" then HashPassword(req.password, salt) else Ok(existing.password);
    if token.Err? then Err(token.error)
    else if hash.Err? then Err(hash.error)
    else Ok(existing.(title := req.title, content := req.content, syntaxHighlight := req.syntaxHighlight,
                      editorType := req.editorType, expiresAt := req.expiresAt, privacy := req.privacy,
                      privateAccessId := token.value, password := hash.value))
  }

  /**
   * The decision of VerifyPassword once the paste is loaded: Ok(true) on a
   * match; Ok(false) when the paste has no password or the password does not
   * match; an error when bcrypt fails in any other way.
   */
  function CheckPassword(stored: string, provided: string): (r: Result<bool, Error>)
    ensures stored == "" ==> r == Ok(false)
    ensures stored != "" ==> (r == Ok(true) <==> CompareHashAndPassword(stored, provided) == Match)
    ensures stored != "" ==> (r == Ok(false) <==> CompareHashAndPassword(stored, provided) == Mismatch)
    ensures r.Err? <==> stored != "" && CompareHashAndPassword(stored, provided) == Malformed
    ensures r.Err? ==> r.error == MalformedHash
  {
    if stored == "" then Ok(false)
    else
      match CompareHashAndPassword(stored, provided)
      case Match => Ok(true)
      case Mismatch => Ok(false)
      case Malformed => Err(MalformedHash)
  }

  /** What VerifyPassword answers for the store `t`: the lookup error as is, else the decision on the stored hash. */
  function PasswordVerdict(t: Table, id: uint64, provided: string): (r: Result<bool, Error>)
    ensures id !in t ==> r == Err(RecordNotFound)
    ensures id in t ==> r == CheckPassword(t[id].password, provided)
  {
    match FindByID(t, id)
    case Err(e) => Err(e)
    case Ok(paste) => CheckPassword(paste.password, provided)
  }

  /** A password set by a create or an update verifies for that password and is rejected for any other. */
  lemma CheckStoredHash(stored: string, password: string, provided: string)
    requires password != "" && stored != password && HashOf(stored, password)
    ensures CheckPassword(stored, provided) == Ok(provided == password)
  {
    assert CompareHashAndPassword(stored, password) == Match;
  }

  class PasteService {
    const repo: PasteRepository

    ghost predicate Valid()
      reads this, repo
    {
      repo.Valid()
    }

    constructor (repo: PasteRepository)
      ensures this.repo == repo
    {
      this.repo := repo;
    }

    /** Builds the paste field by field, issues a token and hashes the password as needed, then stores it. */
    method Create(req: CreateRequest, random: Option<RandomBlock>, salt: Option<Salt>, now: Time)
      returns (r: Result<Paste, Error>)
      requires Valid()
      modifies repo
      ensures Valid()
      ensures var np := NewPaste(req, random, salt);
              && (np.Err? ==> r == np && repo.table == old(repo.table) && repo.nextId == old(repo.nextId))
              && (np.Ok? ==>
                    var e := InsertEffect(old(repo.table), old(repo.nextId), np.value, now);
                    r == e.result && repo.table == e.table && repo.nextId == e.nextId)
    {
      var paste := Paste(0, req.title, req.content, req.syntaxHighlight, req.editorType,
                         ZeroTime, req.expiresAt, req.privacy, "", "");
      if req.privacy == Private {
        var privateId := GeneratePrivateAccessID(random);
        if privateId.Err? {
          return Err(privateId.error);
        }
        paste := paste.(privateAccessId := privateId.value);
      }
      if req.password != "" {
        var hashed := HashPassword(req.password, salt);
        if hashed.Err? {
          return Err(hashed.error);
        }
        paste := paste.(password := hashed.value);
      }
      r := repo.Create(paste, now);
    }

    /** Loads the paste, overwrites the request's fields one by one, then saves the whole record. */
    method Update(req: UpdateRequest, random: Option<RandomBlock>, salt: Option<Salt>, now: Time)
      returns (r: Result<Paste, Error>)
      requires Valid()
      modifies repo
      ensures Valid()
      ensures repo.nextId == old(repo.nextId)
      ensures req.id !in old(repo.table) ==> r == Err(RecordNotFound) && repo.table == old(repo.table)
      ensures req.id in old(repo.table) ==>
                var u := UpdatedPaste(old(repo.table)[req.id], req, random, salt);
                && (u.Err? ==> r == u && repo.table == old(repo.table))
                && (u.Ok? ==> r == u && repo.table == old(repo.table)[req.id := u.value])
    {
      var existing := repo.GetByID(req.id);
      if existing.Err? {
        return Err(existing.error);
      }
      var paste := existing.value;
      paste := paste.(title := req.title);
      paste := paste.(content := req.content);
      paste := paste.(syntaxHighlight := req.syntaxHighlight);
      paste := paste.(editorType := req.editorType);
      paste := paste.(expiresAt := req.expiresAt);
      paste := paste.(privacy := req.privacy);
      if req.privacy == Private && paste.privateAccessId == "" {
        var privateId := GeneratePrivateAccessID(random);
        if privateId.Err? {
          return Err(privateId.error);
        }
        paste := paste.(privateAccessId := privateId.value);
      }
      if req.password != "" {
        var hashed := HashPassword(req.password, salt);
        if hashed.Err? {
          return Err(hashed.error);
        }
        paste := paste.(password := hashed.value);
      }
      r := repo.Update(paste, now);
    }

    /** VerifyPassword: loads the paste, then no hash, a mismatch and any other compare error are told apart. */
    method VerifyPassword(id: uint64, provided: string) returns (r: Result<bool, Error>)
      requires Valid()
      ensures r == PasswordVerdict(repo.table, id, provided)
      ensures r == Ok(true) <==> (id in repo.table && repo.table[id].password != ""
                                  && CompareHashAndPassword(repo.table[id].password, provided) == Match)
    {
      var paste := repo.GetByID(id);
      if paste.Err? {
        return Err(paste.error);
      }
      if paste.value.password == "" {
        return Ok(false);
      }
      match CompareHashAndPassword(paste.value.password, provided) {
        case Match => r := Ok(true);
        case Mismatch => r := Ok(false);
        case Malformed => r := Err(MalformedHash);
      }
    }

    /** Delete: the repository's answer, which is always the requested id. */
    method Delete(id: uint64) returns (r: Result<uint64, Error>)
      requires Valid()
      modifies repo
      ensures Valid()
      ensures r == Ok(id) && repo.table == old(repo.table) - {id} && repo.nextId == old(repo.nextId)
    {
      var deleted := repo.Delete(id);
      r := Ok(deleted);
    }
  }
}
