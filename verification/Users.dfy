/** The user table: salted hashes, registration under a new name only, and the file that carries the
    table from one session to the next. */
module Users {
  import opened Bytes
  import opened Fields
  import opened Ciphers
  import opened Transport

  datatype User = User(name: seq<byte>, salt: seq<byte>, hash: seq<byte>)

  // ----- the hash -----

  function HashSeed(seed: nat, text: seq<byte>): (r: nat)
    ensures seed < U32 ==> r < U32
  {
    if text == [] then seed else (HashSeed(seed, text[..|text| - 1]) * 131 + text[|text| - 1]) % U32
  }

  /** Byte i of the output stream: one step taken, three discarded. */
  function HashByte(seed: nat, i: nat): byte {
    LcgSkip(seed, 32 + 4 * i + 1) % 256
  }

  /** Exclusive or of the first n output bytes. */
  function Accumulated(seed: nat, n: nat): byte {
    if n == 0 then 0 else Xor(Accumulated(seed, n - 1), HashByte(seed, n - 1))
  }

  function HashOf(password: seq<byte>, salt: seq<byte>): (h: seq<byte>)
    ensures |h| == 32
  {
    var seed := HashSeed(HashSeed(0xDEADBEEF, password), salt);
    seq(32, i requires 0 <= i < 32 => Xor(HashByte(seed, i), Accumulated(seed, i + 1)))
  }

  method MixIn(start: nat, text: seq<byte>) returns (seed: nat)
    ensures seed == HashSeed(start, text)
  {
    seed := start;
    for i := 0 to |text|
      invariant seed == HashSeed(start, text[..i])
    {
      assert text[..i + 1][..i] == text[..i];
      seed := (seed * 131 + text[i]) % U32;
    }
    assert text[..|text|] == text;
  }

  lemma {:induction false} NextHashByte(seed: nat, i: nat, state: nat)
    requires state == LcgSkip(seed, 32 + 4 * i)
    ensures LcgStep(state) % 256 == HashByte(seed, i)
    ensures LcgSkip(LcgStep(state), 3) == LcgSkip(seed, 32 + 4 * (i + 1))
  {
    hide LcgSkip, LcgStep;
    StepAfterSkip(seed, 32 + 4 * i);
    SkipAdd(seed, 32 + 4 * i + 1, 3);
  }

  lemma {:induction false} NextAccumulated(seed: nat, n: nat)
    ensures Accumulated(seed, n + 1) == Xor(Accumulated(seed, n), HashByte(seed, n))
  {
  }

  method HashBytes(seed: nat) returns (hash: seq<byte>)
    ensures |hash| == 32 && forall k :: 0 <= k < 32 ==> hash[k] == Xor(HashByte(seed, k), Accumulated(seed, k + 1))
  {
    var lcg := new Lcg(seed);
    lcg.Skip(32);
    hash := [];
    var accum: byte := 0;
    assert Accumulated(seed, 0) == 0;
    hide Xor, LcgStep, LcgSkip, HashByte, Accumulated;
    for i := 0 to 32
      invariant lcg.state == LcgSkip(seed, 32 + 4 * i) && accum == Accumulated(seed, i)
      invariant |hash| == i && forall k :: 0 <= k < i ==> hash[k] == Xor(HashByte(seed, k), Accumulated(seed, k + 1))
    {
      NextHashByte(seed, i, lcg.state);
      NextAccumulated(seed, i);
      var b := lcg.Next();
      accum := Xor(accum, b);
      lcg.Skip(3);
      hash := hash + [Xor(b, accum)];
    }
  }

  method ComputeHash(password: seq<byte>, salt: seq<byte>) returns (hash: seq<byte>)
    ensures hash == HashOf(password, salt)
  {
    var seed := MixIn(0xDEADBEEF, password);
    seed := MixIn(seed, salt);
    hash := HashBytes(seed);
  }

  // ----- the table -----

  /** The first entry with the name. */
  function Lookup(users: seq<User>, name: seq<byte>): (r: Option<User>)
    ensures r.Some? ==> r.value in users && r.value.name == name
    ensures r.None? <==> forall k :: 0 <= k < |users| ==> users[k].name != name
  {
    if users == [] then None
    else if users[0].name == name then Some(users[0])
    else Lookup(users[1..], name)
  }

  ghost predicate DistinctNames(users: seq<User>) {
    forall j, k :: 0 <= j < k < |users| ==> users[j].name != users[k].name
  }

  lemma {:induction false} LookupFinds(users: seq<User>, k: nat)
    requires DistinctNames(users) && k < |users|
    ensures Lookup(users, users[k].name) == Some(users[k])
    decreases k
  {
    if k == 0 {
    } else {
      var rest := users[1..];
      assert forall j :: 0 <= j < |rest| ==> rest[j] == users[j + 1];
      assert users[0].name != users[k].name;
      LookupFinds(rest, k - 1);
    }
  }

  // ----- the file -----

  predicate Storable(u: User) {
    |u.salt| == 8 && |u.hash| == 32 && |u.name| < U16
  }

  function UserBytes(u: User): seq<byte> {
    u.salt + u.hash + Put(Text(u.name))
  }

  function AllUserBytes(us: seq<User>): seq<byte> {
    if us == [] then [] else UserBytes(us[0]) + AllUserBytes(us[1..])
  }

  /** saveUsers. */
  function TableFile(us: seq<User>): seq<byte> {
    LE(|us|, 4) + AllUserBytes(us)
  }

  /** loadUsers after the count: complete entries until the count or the file runs out. */
  function LoadFrom(data: seq<byte>, offset: nat, count: nat): seq<User>
    decreases count
  {
    if count == 0 || offset + 40 > |data| then [] else
      var n := GetText(data, offset + 40);
      if n.None? then [] else
        [User(n.value.0, data[offset..offset + 8], data[offset + 8..offset + 40])] + LoadFrom(data, n.value.1, count - 1)
  }

  function Loaded(data: seq<byte>): seq<User> {
    if |data| < 4 then [] else LoadFrom(data, 4, FromLE(data[0..4]))
  }

  /** One entry ahead is read whole, up to the next. */
  lemma {:induction false} EntryAhead(u: User, data: seq<byte>, offset: nat, rest: seq<byte>) returns (next: nat)
    requires Storable(u) && offset <= |data| && data[offset..] == UserBytes(u) + rest
    ensures offset + 40 <= |data| && data[offset..offset + 8] == u.salt && data[offset + 8..offset + 40] == u.hash
    ensures GetText(data, offset + 40) == Some((u.name, next))
    ensures next <= |data| && data[next..] == rest
  {
    var r := Next(Text(u.name), End);
    assert Put(Text(u.name)) + [] == Put(Text(u.name));
    hide Put, GetText;
    assert data[offset..] == u.salt + (u.hash + (PutAll(r) + rest));
    TakeAhead(data, offset, u.salt, u.hash + (PutAll(r) + rest));
    TakeAhead(data, offset + 8, u.hash, PutAll(r) + rest);
    ReadText(data, offset + 40, r, rest);
    next := offset + 40 + 2 + |u.name|;
    NothingAhead(data, next, rest);
  }

  lemma {:induction false} LoadRoundTrip(us: seq<User>, data: seq<byte>, offset: nat)
    requires forall k :: 0 <= k < |us| ==> Storable(us[k])
    requires offset <= |data| && data[offset..] == AllUserBytes(us)
    ensures LoadFrom(data, offset, |us|) == us
    decreases |us|
  {
    hide UserBytes, GetText, Storable;
    if us == [] {
    } else {
      var next := EntryAhead(us[0], data, offset, AllUserBytes(us[1..]));
      LoadRoundTrip(us[1..], data, next);
    }
  }

  /** The table that the next session loads is the one this session saved. */
  lemma {:induction false} TableRoundTrip(us: seq<User>)
    requires |us| < U32 && forall k :: 0 <= k < |us| ==> Storable(us[k])
    ensures Loaded(TableFile(us)) == us
  {
    hide AllUserBytes, LE, FromLE, LoadFrom;
    var data := TableFile(us);
    TakeAhead(data, 0, LE(|us|, 4), AllUserBytes(us));
    Widths();
    LERoundTrip(|us|, 4);
    LoadRoundTrip(us, data, 4);
  }

  class UserManager {
    var users: seq<User>
    var file: seq<byte>

    constructor (file: seq<byte>)
      ensures users == Loaded(file) && this.file == file
    {
      this.file := file;
      users := Loaded(file);
    }

    method UserExists(name: seq<byte>) returns (b: bool)
      ensures b == Lookup(users, name).Some?
    {
      for i := 0 to |users|
        invariant Lookup(users, name) == Lookup(users[i..], name)
      {
        if users[i].name == name {
          return true;
        }
      }
      b := false;
    }

    /** A taken name is refused; otherwise one entry is appended, none changed, and the file rewritten. */
    method RegisterUserRaw(name: seq<byte>, salt: seq<byte>, hash: seq<byte>) returns (ok: bool)
      modifies this
      ensures ok == old(Lookup(users, name)).None?
      ensures users == if ok then old(users) + [User(name, salt, hash)] else old(users)
      ensures file == if ok then TableFile(users) else old(file)
    {
      var taken := UserExists(name);
      if taken {
        return false;
      }
      users := users + [User(name, salt, hash)];
      file := TableFile(users);
      ok := true;
    }

    method GetUserHash(name: seq<byte>) returns (u: Option<User>)
      ensures u == Lookup(users, name)
    {
      for i := 0 to |users|
        invariant Lookup(users, name) == Lookup(users[i..], name)
      {
        if users[i].name == name {
          return Some(users[i]);
        }
      }
      u := None;
    }
  }
}
