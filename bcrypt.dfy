/**
 * A stand-in for golang.org/x/crypto/bcrypt as the paste service and the
 * user hook call it: GenerateFromPassword with DefaultCost, and
 * CompareHashAndPassword.
 *
 * A stored hash has bcrypt's layout: the prefix "$2a$10$" (algorithm version
 * 2a, cost 10), a 22-character salt drawn from the random source, then a
 * digest of salt and password. The digest here is an injective stand-in, so
 * that comparison can be decided exactly; it is not one-way, and the model
 * states nothing about how hard a hash is to invert.
 */
module Bcrypt {
  import opened Wrappers
  import opened Errors

  const Prefix: string := "$2a$10$"
  const SaltLength: nat := 22

  /** The salt GenerateFromPassword reads from the random source. */
  type Salt = s: string | |s| == 22 witness "......................"

  function Reverse(s: string): (r: string)
    ensures |r| == |s|
    ensures forall i :: 0 <= i < |s| ==> r[i] == s[|s| - 1 - i]
  {
    if s == [] then [] else Reverse(s[1..]) + [s[0]]
  }

  lemma ReverseInjective(a: string, b: string)
    requires Reverse(a) == Reverse(b)
    ensures a == b
  {
    assert |a| == |b|;
    forall i | 0 <= i < |a| ensures a[i] == b[i] {
      assert Reverse(a)[|a| - 1 - i] == Reverse(b)[|a| - 1 - i];
    }
  }

  function Digest(salt: Salt, password: string): string {
    Reverse(salt + password)
  }

  /** The hash bcrypt writes for `password` with the given salt. */
  function Hash(password: string, salt: Salt): (h: string)
    ensures |h| == |Prefix| + SaltLength + SaltLength + |password|
    ensures h[..|Prefix|] == Prefix && h[|Prefix|..|Prefix| + SaltLength] == salt
  {
    Prefix + salt + Digest(salt, password)
  }

  /** GenerateFromPassword: `salt` is what the random source delivered, None when it failed. */
  function GenerateFromPassword(password: string, salt: Option<Salt>): (r: Result<string, Error>)
    ensures r.Err? <==> salt.None?
    ensures r.Err? ==> r.error == HashFailed
    ensures r.Ok? ==> r.value == Hash(password, salt.value)
  {
    match salt
    case None => Err(HashFailed)
    case Some(s) => Ok(Hash(password, s))
  }

  /**
   * What CompareHashAndPassword reports: nil (Match), ErrMismatchedHashAndPassword
   * (Mismatch), or any other error (Malformed: too short, wrong prefix, version or cost).
   */
  datatype Comparison = Match | Mismatch | Malformed

  function CompareHashAndPassword(hash: string, password: string): (c: Comparison)
    ensures c == Malformed <==> (|hash| < |Prefix| + SaltLength || hash[..|Prefix|] != Prefix)
  {
    if |hash| < |Prefix| + SaltLength || hash[..|Prefix|] != Prefix then Malformed
    else
      var salt: Salt := hash[|Prefix|..|Prefix| + SaltLength];
      if hash[|Prefix| + SaltLength..] == Digest(salt, password) then Match else Mismatch
  }

  /** A hash matches exactly the password it was generated from. */
  lemma CompareHash(password: string, candidate: string, salt: Salt)
    ensures CompareHashAndPassword(Hash(password, salt), candidate)
         == if candidate == password then Match else Mismatch
  {
    var h := Hash(password, salt);
    assert h[|Prefix| + SaltLength..] == Digest(salt, password);
    if CompareHashAndPassword(h, candidate) == Match {
      ReverseInjective(salt + password, salt + candidate);
      assert password == (salt + password)[SaltLength..];
      assert candidate == (salt + candidate)[SaltLength..];
    }
  }

  /** CompareHash for every candidate at once. */
  lemma CompareHashAll(password: string, salt: Salt)
    ensures forall candidate :: CompareHashAndPassword(Hash(password, salt), candidate)
                             == if candidate == password then Match else Mismatch
  {
    forall candidate
      ensures CompareHashAndPassword(Hash(password, salt), candidate)
           == if candidate == password then Match else Mismatch
    {
      CompareHash(password, candidate, salt);
    }
  }

  /** The stored hash is never the plaintext it was made from. */
  lemma HashIsNotPlaintext(password: string, salt: Salt)
    ensures Hash(password, salt) != password
  {
    assert |Hash(password, salt)| > |password|;
  }

  /** Two salts give two different hashes of the same password. */
  lemma FreshSaltFreshHash(password: string, s1: Salt, s2: Salt)
    requires s1 != s2
    ensures Hash(password, s1) != Hash(password, s2)
  {
    assert Hash(password, s1)[|Prefix|..|Prefix| + SaltLength] == s1;
  }
}
