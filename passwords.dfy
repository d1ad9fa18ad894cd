/**
 The stored password format. A hash is written as `method$salt$digest`, where
 the digest of the salted password is computed by a one-way function that is
 not part of this model and is passed in as `digest`. Checking a password
 splits the stored string at its first two `$` and recomputes the digest with
 the method and salt found there.
 */
module Passwords {
  import opened Wrappers

  /** The one-way function: (method, salt, password) to hex digest. */
  type Digest = (string, string, string) -> string

  /** The hashing method the registration handler asks for. */
  const Method: string := "pbkdf2:sha256"

  const Separator: char := '$'

  /** The position of the first `c` in `s`, if there is one. */
  function IndexOf(s: string, c: char): (r: Option<nat>)
    ensures r.Some? ==> r.value < |s| && s[r.value] == c && c !in s[..r.value]
    ensures r.None? ==> c !in s
  {
    if s == [] then None
    else if s[0] == c then Some(0)
    else match IndexOf(s[1..], c)
      case None => None
      case Some(i) =>
        assert s[..i + 1] == [s[0]] + s[1..][..i];
        Some(i + 1)
  }

  /** `IndexOf` finds the separator right after a prefix free of it. */
  lemma IndexOfAfterPrefix(a: string, c: char, b: string)
    requires c !in a
    ensures IndexOf(a + [c] + b, c) == Some(|a|)
  {
    var s := a + [c] + b;
    assert s[|a|] == c;
    assert s[..|a|] == a;
  }

  /**
   Splits a stored hash into method, salt and digest at its first two
   separators; a string with fewer than two separators is not a hash.
   */
  function SplitHash(h: string): (r: Option<(string, string, string)>)
    ensures r.Some? ==>
      && h == r.value.0 + [Separator] + r.value.1 + [Separator] + r.value.2
      && Separator !in r.value.0 && Separator !in r.value.1
    ensures r.None? ==> forall i, j :: 0 <= i < j < |h| && h[i] == Separator ==> h[j] != Separator
  {
    match IndexOf(h, Separator)
    case None => None
    case Some(i) =>
      var rest := h[i + 1..];
      match IndexOf(rest, Separator)
      case None =>
        assert forall j :: i < j < |h| ==> h[j] == rest[j - i - 1];
        None
      case Some(k) =>
        assert h == h[..i] + [Separator] + rest[..k] + [Separator] + rest[k + 1..];
        Some((h[..i], rest[..k], rest[k + 1..]))
  }

  /**
   The hash stored at registration (the salt comes from a random source). With
   a salt free of separators it splits back into the method, the salt and the
   digest it was made of.
   */
  function GeneratePasswordHash(password: string, salt: string, digest: Digest): (h: string)
    ensures Separator !in salt ==> SplitHash(h) == Some((Method, salt, digest(Method, salt, password)))
  {
    var d := digest(Method, salt, password);
    var h := Method + [Separator] + salt + [Separator] + d;
    if Separator in salt then h
    else
      assert h == Method + [Separator] + (salt + [Separator] + d);
      IndexOfAfterPrefix(Method, Separator, salt + [Separator] + d);
      var rest := h[|Method| + 1..];
      assert rest == salt + [Separator] + d;
      IndexOfAfterPrefix(salt, Separator, d);
      assert h[..|Method|] == Method;
      assert rest[..|salt|] == salt;
      assert rest[|salt| + 1..] == d;
      h
  }

  /**
   Whether `password` matches the stored hash `pwhash`. Only a string that
   splits into method, salt and digest can match; one with fewer than two
   separators matches no password.
   */
  function CheckPasswordHash(pwhash: string, password: string, digest: Digest): (r: bool)
    ensures r ==> SplitHash(pwhash).Some?
  {
    match SplitHash(pwhash)
    case None => false
    case Some((hashMethod, salt, expected)) => digest(hashMethod, salt, password) == expected
  }

  /**
   Checking a password against a freshly generated hash succeeds exactly when
   its digest under the same method and salt equals that of the registered
   password; in particular the registered password itself is accepted.
   */
  lemma CheckGenerated(password: string, attempt: string, salt: string, digest: Digest)
    requires Separator !in salt
    ensures CheckPasswordHash(GeneratePasswordHash(password, salt, digest), attempt, digest)
        <==> digest(Method, salt, attempt) == digest(Method, salt, password)
    ensures CheckPasswordHash(GeneratePasswordHash(password, salt, digest), password, digest)
  {
    assert SplitHash(GeneratePasswordHash(password, salt, digest)) == Some((Method, salt, digest(Method, salt, password)));
  }
}
