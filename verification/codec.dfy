/**
 * The collaborators the backend calls but whose code is not part of this model:
 * bcrypt (hash, compare), jsonwebtoken (sign, verify), validator.isEmail and the
 * user schema's default status. They are kept uninterpreted as fields of
 * `Externals`; `Sound` collects the few facts the backend relies on.
 *
 * Also here: the space-splitting of an Authorization header, as JavaScript's
 * `String.prototype.split(' ')` does it.
 */
module Codec {
  import opened Wrappers

  /** The payload signed into a token: `{ email, userId }`. */
  datatype Claims = Claims(email: string, userId: nat)

  /** What a successful login returns: `{ token, userId }`. */
  datatype Session = Session(token: string, userId: nat)

  datatype Externals = Externals(
    hash: string -> string,                       // bcrypt.hashSync
    compare: (string, string) -> bool,            // bcrypt.compareSync(plain, hashed)
    sign: (string, Claims) -> string,             // jwt.sign(claims, secret)
    verify: (string, string) -> Option<Claims>,   // jwt.verify(token, secret); None when it throws
    isEmail: string -> bool,                      // validator.isEmail
    defaultStatus: string                         // status a freshly saved user gets from its schema
  )

  /** A password matches its own hash. */
  ghost predicate HashSound(x: Externals)
  {
    forall p :: x.compare(p, x.hash(p))
  }

  /**
   * A signed token verifies, under the same secret, to the claims it was signed with.
   * Signed tokens are non-empty and hold no space (compact JWTs are dot-separated base64url).
   */
  ghost predicate TokenSound(x: Externals)
  {
    forall secret, c :: x.verify(secret, x.sign(secret, c)) == Some(c) && x.sign(secret, c) != [] && ' ' !in x.sign(secret, c)
  }

  ghost predicate Sound(x: Externals)
  {
    HashSound(x) && TokenSound(x)
  }

  /** A token signed under one secret never verifies under a different one. */
  ghost predicate SecretBinding(x: Externals)
  {
    forall s1, s2, c :: s1 != s2 ==> x.verify(s2, x.sign(s1, c)) == None
  }

  /** Concatenation of `parts` with `sep` between neighbours: the inverse of `Split`. */
  function Join(parts: seq<string>, sep: char): (s: string)
    requires |parts| >= 1
    decreases |parts|
  {
    if |parts| == 1 then parts[0] else parts[0] + [sep] + Join(parts[1..], sep)
  }

  /**
   * `s.split(sep)` for a one-character separator: every occurrence of `sep` cuts,
   * so neighbouring separators give empty parts and the empty string gives `[""]`.
   */
  function Split(s: string, sep: char): (parts: seq<string>)
    ensures |parts| >= 1
    ensures forall i :: 0 <= i < |parts| ==> sep !in parts[i]
    ensures Join(parts, sep) == s
    decreases |s|
  {
    if |s| == 0 then [""]
    else
      var rest := Split(s[1..], sep);
      if s[0] == sep then
        assert s == [] + [sep] + Join(rest, sep);
        [""] + rest
      else
        var parts := [[s[0]] + rest[0]] + rest[1..];
        assert parts[1..] == rest[1..];
        assert s == [s[0]] + s[1..];
        parts
  }

  /** A string without the separator is a single part. */
  lemma LemmaSplitWhole(w: string, sep: char)
    requires sep !in w
    ensures Split(w, sep) == [w]
  {
  }

  /** A leading separator-free word followed by the separator is cut off as the first part. */
  lemma {:induction false} LemmaSplitCons(w: string, sep: char, t: string)
    requires sep !in w
    ensures Split(w + [sep] + t, sep) == [w] + Split(t, sep)
    decreases |w|
  {
    var s := w + [sep] + t;
    if |w| == 0 {
      assert s[1..] == t;
    } else {
      assert s[1..] == w[1..] + [sep] + t;
      LemmaSplitCons(w[1..], sep, t);
      assert [w[0]] + w[1..] == w;
    }
  }

  /** Splitting undoes joining when no part contains the separator. */
  lemma {:induction false} LemmaSplitJoin(parts: seq<string>, sep: char)
    requires |parts| >= 1
    requires forall i :: 0 <= i < |parts| ==> sep !in parts[i]
    ensures Split(Join(parts, sep), sep) == parts
    decreases |parts|
  {
    if |parts| == 1 {
      LemmaSplitWhole(parts[0], sep);
    } else {
      assert sep !in parts[0];
      LemmaSplitJoin(parts[1..], sep);
      LemmaSplitCons(parts[0], sep, Join(parts[1..], sep));
      assert [parts[0]] + parts[1..] == parts;
    }
  }
}
