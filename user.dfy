/**
 * The user record: its save hook, which hashes the password in place, and
 * its response form, which leaves the password out.
 */
module Users {
  import opened Wrappers
  import opened Errors
  import opened Bcrypt
  import Pastes

  datatype UserResponse = UserResponse(id: Pastes.uint64, name: string, email: string)

  /**
   * What BeforeSave leaves in the password field: an empty password stays
   * empty; any other value, whatever it holds, becomes a hash of it.
   */
  function SavedPassword(password: string, salt: Option<Salt>): (r: Result<string, Error>)
    ensures password == "" ==> r == Ok("")
    ensures password != "" && salt.None? ==> r == Err(HashFailed)
    ensures password != "" && salt.Some? ==> r.Ok? && r.value != password
    ensures password != "" && salt.Some? ==>
              forall q :: CompareHashAndPassword(r.value, q) == if q == password then Match else Mismatch
  {
    if password == "" then Ok("")
    else
      match salt
      case None => Err(HashFailed)
      case Some(s) =>
        CompareHashAll(password, s);
        HashIsNotPlaintext(password, s);
        GenerateFromPassword(password, salt)
  }

  /**
   * BeforeSave is not idempotent: saving a user whose password is already a
   * hash hashes the hash, and the original password no longer matches.
   */
  lemma SavingTwiceLosesThePassword(password: string, s1: Salt, s2: Salt)
    requires password != ""
    ensures var once := SavedPassword(password, Some(s1)).value;
            var twice := SavedPassword(once, Some(s2)).value;
            && CompareHashAndPassword(once, password) == Match
            && twice != once
            && CompareHashAndPassword(twice, password) == Mismatch
  {
    var once := SavedPassword(password, Some(s1)).value;
    HashIsNotPlaintext(password, s1);
    CompareHash(once, password, s2);
  }

  class User {
    var id: Pastes.uint64
    var name: string
    var email: string
    var password: string

    constructor (id: Pastes.uint64, name: string, email: string, password: string)
      ensures this.id == id && this.name == name && this.email == email && this.password == password
    {
      this.id, this.name, this.email, this.password := id, name, email, password;
    }

    /**
     * gin's binding rules: name `required`, email `required,email`, password
     * `required,min=8` (at least 8 characters).
     */
    predicate Binds()
      reads this
    {
      name != "" && email != "" && |password| >= 8
    }

    /** The hook GORM runs before a save; on a hashing error the field is left as it was. */
    method BeforeSave(salt: Option<Salt>) returns (err: Option<Error>)
      modifies this`password
      ensures var r := SavedPassword(old(password), salt);
              && (r.Err? ==> err == Some(r.error) && password == old(password))
              && (r.Ok? ==> err == None && password == r.value)
    {
      if password != "" {
        var hashed := GenerateFromPassword(password, salt);
        if hashed.Err? {
          return Some(hashed.error);
        }
        password := hashed.value;
      }
      return None;
    }

    /** The API form of a user: id, name and email unchanged; it has no password field. */
    function ToResponse(): (r: UserResponse)
      reads this
      ensures r.id == id && r.name == name && r.email == email
    {
      UserResponse(id, name, email)
    }
  }
}
