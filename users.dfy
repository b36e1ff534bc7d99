/** The `user` table and the two library calls the sign-up and log-in routes
    make on passwords (backend/src/routes/auth.ts). */
module Users {
  import opened Common

  /** The UTF-8 encoding of one character. */
  function CharBytes(c: char): (b: seq<nat>)
    ensures 1 <= |b| <= 4
  {
    var n := c as int;
    if n < 0x80 then [n]
    else if n < 0x800 then [0xC0 + n / 0x40, 0x80 + n % 0x40]
    else if n < 0x10000 then [0xE0 + n / 0x1000, 0x80 + n / 0x40 % 0x40, 0x80 + n % 0x40]
    else [0xF0 + n / 0x40000, 0x80 + n / 0x1000 % 0x40, 0x80 + n / 0x40 % 0x40, 0x80 + n % 0x40]
  }

  /** The UTF-8 encoding of a string, the bytes bcrypt reads. */
  function Utf8(s: string): (b: seq<nat>)
    ensures |s| <= |b| <= 4 * |s|
  {
    if s == [] then [] else CharBytes(s[0]) + Utf8(s[1..])
  }

  /** Encoding a concatenation concatenates the encodings. */
  lemma {:induction false} Utf8Append(s: string, t: string)
    ensures Utf8(s + t) == Utf8(s) + Utf8(t)
  {
    if s != [] {
      assert (s + t)[1..] == s[1..] + t;
      Utf8Append(s[1..], t);
    } else {
      assert s + t == t;
    }
  }

  const KeyBytes := 72

  /** The part of a password bcrypt uses: the first 72 bytes of its UTF-8
      encoding. */
  function Key(password: string): (k: seq<nat>)
    ensures |k| == Min(KeyBytes, |Utf8(password)|)
    ensures k == Utf8(password)[..|k|]
  {
    Utf8(password)[..Min(KeyBytes, |Utf8(password)|)]
  }

  /** A bcrypt digest, kept as the salt it was made with and the key of the
      password it was made from; only `Compare` looks inside it. */
  datatype Digest = Digest(salt: nat, key: seq<nat>)

  /** `bcrypt.compare(password, digest)`: the password's key is the one the
      digest was made from. */
  function Compare(password: string, digest: Digest): (r: bool)
    ensures r ==> |digest.key| <= KeyBytes
    ensures r <==> digest.key == Utf8(password)[..Min(KeyBytes, |Utf8(password)|)]
  {
    digest.key == Key(password)
  }

  /** `bcrypt.hash(password, 10)`, with the random salt as a parameter: a
      digest made with that salt that the password itself matches. */
  function Hash(password: string, salt: nat): (d: Digest)
    ensures d.salt == salt
    ensures Compare(password, d)
  {
    Digest(salt, Key(password))
  }

  /** A password matches a digest exactly when its first 72 bytes are those
      of the password the digest was made from, whatever the salt; between
      passwords of fewer than 72 bytes, exactly when they encode alike. */
  lemma CompareHash(password: string, other: string, salt: nat)
    ensures Compare(password, Hash(other, salt)) <==> Key(password) == Key(other)
    ensures |Utf8(password)| < KeyBytes && |Utf8(other)| < KeyBytes ==>
      (Compare(password, Hash(other, salt)) <==> Utf8(password) == Utf8(other))
  {
  }

  /** Whatever follows the first 72 bytes of a password is not read: the
      password with anything appended matches its digest. */
  lemma LongPasswordTail(password: string, tail: string, salt: nat)
    requires |Utf8(password)| >= KeyBytes
    ensures Compare(password + tail, Hash(password, salt))
  {
    Utf8Append(password, tail);
    assert (Utf8(password) + Utf8(tail))[..KeyBytes] == Utf8(password)[..KeyBytes];
  }

  /** A row of the `user` table; `createdAt` is a clock reading. */
  datatype User = User(id: nat, username: string, passwordHash: Option<Digest>, createdAt: int)

  /** `user.findUnique({ where: { id } })` */
  function FindById(users: seq<User>, id: nat): (r: Option<User>)
    ensures r.Some? ==> r.value in users && r.value.id == id
    ensures r.None? <==> forall u :: u in users ==> u.id != id
  {
    if users == [] then None
    else if users[0].id == id then Some(users[0])
    else FindById(users[1..], id)
  }

  /** `user.findUnique({ where: { username } })` */
  function FindByUsername(users: seq<User>, name: string): (r: Option<User>)
    ensures r.Some? ==> r.value in users && r.value.username == name
    ensures r.None? <==> forall u :: u in users ==> u.username != name
  {
    if users == [] then None
    else if users[0].username == name then Some(users[0])
    else FindByUsername(users[1..], name)
  }

  /** The table's unique index on `username`. */
  ghost predicate UniqueUsernames(users: seq<User>)
  {
    forall i, j :: 0 <= i < j < |users| ==> users[i].username != users[j].username
  }
}
