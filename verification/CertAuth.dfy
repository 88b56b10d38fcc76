/** `certauth`: which users may log in with which certificate keys, indexed both ways. */
module CertAuth {
  import opened Strings
  import OrderedSets
  import Multimap

  type Index = map<string, set<string>>

  /** `m[x]`, nothing if absent. */
  function At(m: Index, x: string): set<string> {
    if x in m then m[x] else {}
  }

  function Put(m: Index, x: string, y: string): Index {
    m[x := At(m, x) + {y}]
  }

  /** One pair removed, and with the last one of a key the key. */
  function Drop(m: Index, x: string, y: string): Index {
    if x !in m then m
    else if m[x] - {y} == {} then m - {x}
    else m[x := m[x] - {y}]
  }

  predicate NoEmpty(m: Index) {
    forall x :: x in m ==> m[x] != {}
  }

  predicate Linked(m: Index, x: string, y: string) {
    x in m && y in m[x]
  }

  /** Each map is the other one read backwards, and stored keys are lower case. */
  ghost predicate Inverse(pubKeys: Index, keyToUser: Index) {
    && NoEmpty(pubKeys) && NoEmpty(keyToUser)
    && (forall u, k :: Linked(pubKeys, u, k) <==> Linked(keyToUser, k, u))
    && (forall u, k :: Linked(pubKeys, u, k) ==> Lower(k) == k)
  }

  lemma PutLinks(m: Index, x: string, y: string)
    ensures forall a, b :: Linked(Put(m, x, y), a, b) <==> Linked(m, a, b) || (a == x && b == y)
    ensures NoEmpty(m) ==> NoEmpty(Put(m, x, y))
  {
  }

  lemma DropLinks(m: Index, x: string, y: string)
    ensures forall a, b :: Linked(Drop(m, x, y), a, b) <==> Linked(m, a, b) && !(a == x && b == y)
    ensures NoEmpty(m) ==> NoEmpty(Drop(m, x, y))
  {
    if x in m && m[x] - {y} == {} {
      forall b | b in m[x] ensures b == y {
        assert b !in m[x] - {y};
      }
    }
  }

  lemma AddLink(p: Index, q: Index, u: string, k: string)
    requires Inverse(p, q) && Lower(k) == k
    ensures Inverse(Put(p, u, k), Put(q, k, u))
    ensures forall a, b :: Linked(Put(p, u, k), a, b) <==> Linked(p, a, b) || (a == u && b == k)
  {
    PutLinks(p, u, k);
    PutLinks(q, k, u);
  }

  lemma RemoveLink(p: Index, q: Index, u: string, k: string)
    requires Inverse(p, q)
    ensures Inverse(Drop(p, u, k), Drop(q, k, u))
    ensures forall a, b :: Linked(Drop(p, u, k), a, b) <==> Linked(p, a, b) && !(a == u && b == k)
  {
    DropLinks(p, u, k);
    DropLinks(q, k, u);
  }

  lemma LessIsTotal()
    ensures OrderedSets.StrictTotal(Multimap.Less)
  {
    forall x, y
      ensures !(Multimap.Less(x, y) && Multimap.Less(y, x)) && (Multimap.Less(x, y) || Multimap.Less(y, x) || x == y)
    {
      Multimap.LessTotal(x, y);
    }
    forall x, y, z | Multimap.Less(x, y) && Multimap.Less(y, z) ensures Multimap.Less(x, z) {
      Multimap.LessTransitive(x, y, z);
    }
  }

  function InOrder(s: set<string>): (r: seq<string>)
    ensures |r| == |s| && forall x :: x in r <==> x in s
    ensures forall i, j :: 0 <= i < j < |r| ==> Multimap.Less(r[i], r[j])
  {
    LessIsTotal();
    OrderedSets.Ascending(s, Multimap.Less)
  }

  // ----- The registry -----

  function Joined(keys: seq<string>): string {
    if keys == [] then "" else keys[0] + " " + Joined(keys[1..])
  }

  /** What is stored for each user. */
  function Saved(pubKeys: Index): map<string, string> {
    map u | u in pubKeys && Joined(InOrder(pubKeys[u])) != "" :: Joined(InOrder(pubKeys[u]))
  }

  /** The keys read from a stored value. */
  function Loaded(value: string): set<string> {
    Lowered(Split(value, ' '))
  }

  function Lowered(keys: seq<string>): set<string> {
    set k | k in keys :: Lower(k)
  }

  /** Whether reading a registry gives a user a key. */
  predicate Grants(nv: map<string, string>, users: set<string>, u: string, k: string) {
    u in nv && u in users && k in Loaded(nv[u])
  }

  datatype Verdict =
    | NoCertificate
    | NotRecognised
    | EmptyUserList
    | NotThisUser
    | NoSuchUser
    | Accepted(user: string)

  /** Whether a user has a key after perhaps being moved from one key to another. */
  predicate Moved(had: bool, moves: bool, k: string, from: string, to: string) {
    if moves then (had || k == to) && k != from else had
  }

  /** Some users' keys have moved from one fingerprint to another, and nothing else changed. */
  ghost predicate MovedAll(before: Index, after: Index, moved: set<string>, from: string, to: string) {
    forall u, k :: Linked(after, u, k) == Moved(Linked(before, u, k), u in moved, k, from, to)
  }

  lemma MoveOneMore(before: Index, mid: Index, after: Index, moved: set<string>, user: string,
                    from: string, to: string)
    requires MovedAll(before, mid, moved, from, to) && MovedAll(mid, after, {user}, from, to)
    ensures MovedAll(before, after, moved + {user}, from, to)
  {
    forall u, k ensures Linked(after, u, k) == Moved(Linked(before, u, k), u in moved + {user}, k, from, to) {
      assert Linked(after, u, k) == Moved(Linked(mid, u, k), u in {user}, k, from, to);
    }
  }

  lemma NotYetMoved(before: Index, mid: Index, moved: set<string>, from: string, to: string, user: string)
    requires MovedAll(before, mid, moved, from, to) && user !in moved && Linked(before, user, from)
    ensures Linked(mid, user, from)
  {
  }

  predicate Distinct(names: seq<string>) {
    forall i, j :: 0 <= i < j < |names| ==> names[i] != names[j]
  }

  lemma OrderDistinct(s: set<string>)
    ensures Distinct(InOrder(s))
  {
    var r := InOrder(s);
    forall i, j | 0 <= i < j < |r| ensures r[i] != r[j] {
      Multimap.LessTotal(r[i], r[j]);
    }
  }

  function Existing(names: seq<string>, users: set<string>): set<string> {
    set n | n in names && n in users
  }

  lemma OneMoreName(names: seq<string>, i: nat, users: set<string>)
    requires i < |names| && Distinct(names)
    ensures names[i] !in Existing(names[..i], users)
    ensures Existing(names[..i + 1], users)
         == Existing(names[..i], users) + if names[i] in users then {names[i]} else {}
  {
    assert names[..i + 1] == names[..i] + [names[i]];
  }

  /** What a move of all holders that exist comes to. */
  lemma AllMoved(before: Index, after: Index, moved: set<string>, users: set<string>, from: string, to: string)
    requires MovedAll(before, after, moved, from, to)
    requires forall u :: u in moved <==> u in users && Linked(before, u, from)
    ensures forall u, k :: Linked(after, u, k) <==>
              if u in users && Linked(before, u, from) then k != from && (Linked(before, u, k) || k == to)
              else Linked(before, u, k)
  {
    forall u, k
      ensures Linked(after, u, k) <==>
                if u in users && Linked(before, u, from) then k != from && (Linked(before, u, k) || k == to)
                else Linked(before, u, k)
    {
      assert Linked(after, u, k) == Moved(Linked(before, u, k), u in moved, k, from, to);
    }
  }

  /** The stored keys of some users have been added. */
  ghost predicate Booted(before: Index, after: Index, nv: map<string, string>, users: set<string>, done: set<string>) {
    forall u, k :: Linked(after, u, k) <==> Linked(before, u, k) || (u in done && Grants(nv, users, u, k))
  }

  lemma BootOneMore(before: Index, mid: Index, after: Index, nv: map<string, string>, users: set<string>,
                    done: set<string>, user: string)
    requires Booted(before, mid, nv, users, done) && Booted(mid, after, nv, users, {user})
    ensures Booted(before, after, nv, users, done + {user})
  {
  }

  lemma AllBooted(before: Index, after: Index, nv: map<string, string>, users: set<string>,
                  done: set<string>, names: seq<string>)
    requires Booted(before, after, nv, users, done) && (forall n :: n in names ==> n in done)
    requires forall u :: u in nv ==> u in names
    ensures forall u, k :: Linked(after, u, k) <==> Linked(before, u, k) || Grants(nv, users, u, k)
  {
    forall u, k ensures Linked(after, u, k) <==> Linked(before, u, k) || Grants(nv, users, u, k) {
      assert Grants(nv, users, u, k) ==> u in done;
    }
  }

  /** A user has been given some keys. */
  ghost predicate Given(before: Index, after: Index, user: string, keys: set<string>) {
    forall u, k :: Linked(after, u, k) <==> Linked(before, u, k) || (u == user && k in keys)
  }

  lemma GivenOneMore(before: Index, mid: Index, after: Index, user: string, keys: seq<string>, i: nat)
    requires i < |keys| && Given(before, mid, user, Lowered(keys[..i]))
    requires Given(mid, after, user, {Lower(keys[i])})
    ensures Given(before, after, user, Lowered(keys[..i + 1]))
  {
    assert keys[..i + 1] == keys[..i] + [keys[i]];
    assert forall k :: k in Lowered(keys[..i + 1]) <==> k in Lowered(keys[..i]) || k == Lower(keys[i]);
  }

  class CertAuthMod {
    var pubKeys: Index
    var keyToUser: Index
    var nv: map<string, string>

    ghost predicate Valid()
      reads this
    {
      Inverse(pubKeys, keyToUser)
    }

    predicate Has(u: string, k: string)
      reads this
    {
      Linked(pubKeys, u, k)
    }

    constructor ()
      ensures Valid() && pubKeys == map[] && keyToUser == map[] && nv == map[]
    {
      pubKeys, keyToUser, nv := map[], map[], map[];
    }

    method Save()
      modifies this`nv
      ensures nv == Saved(pubKeys)
    {
      nv := Saved(pubKeys);
    }

    method AddKey(user: string, key: string) returns (added: bool)
      requires Valid()
      modifies this
      ensures Valid() && added == !old(Has(user, Lower(key)))
      ensures forall u, k :: Has(u, k) <==> old(Has(u, k)) || (u == user && k == Lower(key))
      ensures added ==> nv == Saved(pubKeys)
      ensures !added ==> nv == old(nv)
    {
      var k := Lower(key);
      LowerTwice(key);
      added := !Has(user, k);
      if added {
        AddLink(pubKeys, keyToUser, user, k);
        pubKeys := Put(pubKeys, user, k);
        Save();
        keyToUser := Put(keyToUser, k, user);
      }
    }

    method DelKey(user: string, key: string)
      requires Valid()
      modifies this
      ensures Valid()
      ensures forall u, k :: Has(u, k) <==> old(Has(u, k)) && !(u == user && k == Lower(key))
      ensures nv == if old(Has(user, Lower(key))) then Saved(pubKeys) else old(nv)
    {
      var k := Lower(key);
      RemoveLink(pubKeys, keyToUser, user, k);
      if Has(user, k) {
        pubKeys := Drop(pubKeys, user, k);
        keyToUser := Drop(keyToUser, k, user);
        Save();
      }
    }

    /** Deletes a key by its number in the list shown to the user. */
    method HandleDelCommand(user: string, id: nat) returns (removed: bool)
      requires Valid()
      modifies this
      ensures Valid() && removed == (1 <= id <= |old(At(pubKeys, user))|)
      ensures removed ==>
                forall u, k :: Has(u, k) <==>
                  old(Has(u, k)) && !(u == user && k == InOrder(old(At(pubKeys, user)))[id - 1])
      ensures removed ==> nv == Saved(pubKeys)
      ensures !removed ==> pubKeys == old(pubKeys) && keyToUser == old(keyToUser) && nv == old(nv)
    {
      if user !in pubKeys {
        return false;
      }
      if id == 0 || id > |pubKeys[user]| {
        return false;
      }
      var k := InOrder(pubKeys[user])[id - 1];
      assert k in InOrder(pubKeys[user]);
      RemoveLink(pubKeys, keyToUser, user, k);
      pubKeys := Drop(pubKeys, user, k);
      keyToUser := Drop(keyToUser, k, user);
      Save();
      return true;
    }

    /** Adds the stored keys of the users that exist. */
    method OnBoot(users: set<string>)
      requires Valid()
      modifies this`pubKeys, this`keyToUser
      ensures Valid()
      ensures forall u, k :: Has(u, k) <==> old(Has(u, k)) || Grants(nv, users, u, k)
    {
      var names := InOrder(nv.Keys);
      ghost var done := BootUsers(names, users);
      AllBooted(old(pubKeys), pubKeys, nv, users, done, names);
    }

    method BootUsers(names: seq<string>, users: set<string>) returns (ghost done: set<string>)
      requires Valid() && forall n :: n in names ==> n in nv
      modifies this`pubKeys, this`keyToUser
      ensures Valid() && Booted(old(pubKeys), pubKeys, nv, users, done)
      ensures forall n :: n in names ==> n in done
    {
      done := {};
      var i := 0;
      while i < |names|
        invariant i <= |names| && Valid() && Booted(old(pubKeys), pubKeys, nv, users, done)
        invariant forall j :: 0 <= j < i ==> names[j] in done
      {
        ghost var mid := pubKeys;
        BootUser(names[i], users);
        BootOneMore(old(pubKeys), mid, pubKeys, nv, users, done, names[i]);
        done := done + {names[i]};
        i := i + 1;
      }
    }

    method BootUser(user: string, users: set<string>)
      requires Valid() && user in nv
      modifies this`pubKeys, this`keyToUser
      ensures Valid()
      ensures Booted(old(pubKeys), pubKeys, nv, users, {user})
    {
      if user in users {
        LoadKeys(user, Split(nv[user], ' '));
      }
    }

    method LoadKeys(user: string, keys: seq<string>)
      requires Valid()
      modifies this`pubKeys, this`keyToUser
      ensures Valid() && Given(old(pubKeys), pubKeys, user, Lowered(keys))
    {
      var i := 0;
      while i < |keys|
        invariant i <= |keys| && Valid() && Given(old(pubKeys), pubKeys, user, Lowered(keys[..i]))
      {
        ghost var mid := pubKeys;
        LowerTwice(keys[i]);
        LoadKey(user, Lower(keys[i]));
        GivenOneMore(old(pubKeys), mid, pubKeys, user, keys, i);
        i := i + 1;
      }
      assert keys[..i] == keys;
    }

    method LoadKey(user: string, k: string)
      requires Valid() && Lower(k) == k
      modifies this`pubKeys, this`keyToUser
      ensures Valid() && Given(old(pubKeys), pubKeys, user, {k})
    {
      AddLink(pubKeys, keyToUser, user, k);
      pubKeys := Put(pubKeys, user, k);
      keyToUser := Put(keyToUser, k, user);
    }

    /** Every existing user of the old fingerprint gets the new one instead; nobody else changes. */
    method Migrate(sha1: string, sha256: string, users: set<string>)
      requires Valid()
      modifies this
      ensures Valid()
      ensures forall u, k :: Has(u, k) <==>
                if u in users && old(Has(u, sha1)) then k != sha1 && (old(Has(u, k)) || k == Lower(sha256))
                else old(Has(u, k))
      ensures nv == if exists u :: u in users && old(Has(u, sha1)) then Saved(pubKeys) else old(nv)
    {
      if sha1 !in keyToUser {
        return;
      }
      var holders := InOrder(keyToUser[sha1]);
      assert forall u :: u in holders <==> Linked(keyToUser, sha1, u);
      assert holders[0] in holders && Lower(sha1) == sha1;
      OrderDistinct(keyToUser[sha1]);
      MoveKeys(holders, sha1, sha256, users);
      AllMoved(old(pubKeys), pubKeys, Existing(holders, users), users, sha1, Lower(sha256));
    }

    method MoveKeys(holders: seq<string>, sha1: string, sha256: string, users: set<string>)
      requires Valid() && Lower(sha1) == sha1 && Distinct(holders)
      requires forall h :: h in holders ==> Linked(pubKeys, h, sha1)
      modifies this
      ensures Valid() && MovedAll(old(pubKeys), pubKeys, Existing(holders, users), sha1, Lower(sha256))
      ensures nv == if Existing(holders, users) == {} then old(nv) else Saved(pubKeys)
    {
      var i := 0;
      ghost var moved: set<string> := {};
      while i < |holders|
        invariant i <= |holders| && Valid() && moved == Existing(holders[..i], users)
        invariant MovedAll(old(pubKeys), pubKeys, moved, sha1, Lower(sha256))
        invariant nv == if moved == {} then old(nv) else Saved(pubKeys)
      {
        OneMoreName(holders, i, users);
        assert holders[i] in holders;
        if holders[i] in users {
          MoveHolder(holders[i], sha1, sha256, old(pubKeys), moved);
          moved := moved + {holders[i]};
        }
        i := i + 1;
      }
      assert holders[..i] == holders;
    }

    method MoveHolder(holder: string, sha1: string, sha256: string, ghost before: Index, ghost moved: set<string>)
      requires Valid() && Lower(sha1) == sha1 && holder !in moved && Linked(before, holder, sha1)
      requires MovedAll(before, pubKeys, moved, sha1, Lower(sha256))
      modifies this
      ensures Valid() && nv == Saved(pubKeys)
      ensures MovedAll(before, pubKeys, moved + {holder}, sha1, Lower(sha256))
    {
      ghost var mid := pubKeys;
      NotYetMoved(before, mid, moved, sha1, Lower(sha256), holder);
      MoveKey(holder, sha1, sha256);
      MoveOneMore(before, mid, pubKeys, moved, holder, sha1, Lower(sha256));
    }

    method MoveKey(user: string, sha1: string, sha256: string)
      requires Valid() && Lower(sha1) == sha1 && Has(user, sha1)
      modifies this
      ensures Valid() && nv == Saved(pubKeys)
      ensures MovedAll(old(pubKeys), pubKeys, {user}, sha1, Lower(sha256))
    {
      var added := AddKey(user, sha256);
      DelKey(user, sha1);
      forall u, k
        ensures Linked(pubKeys, u, k) == Moved(Linked(old(pubKeys), u, k), u in {user}, k, sha1, Lower(sha256))
      {
        assert Has(u, k) == Linked(pubKeys, u, k) && old(Has(u, k)) == Linked(old(pubKeys), u, k);
      }
    }

    /** A login with user name and password, before the password is looked at. */
    method OnLoginAttempt(user: string, sha1: string, sha256: string, users: set<string>)
        returns (accepted: bool)
      requires Valid()
      modifies this
      ensures Valid()
      ensures accepted <==>
                user in users && sha1 != "" && (old(Has(user, sha1)) || old(Has(user, sha256)))
      ensures forall u, k :: Has(u, k) <==>
                if u == user && user in users && sha1 != "" && old(Has(user, sha1)) then
                  k != sha1 && (old(Has(u, k)) || k == Lower(sha256))
                else old(Has(u, k))
      ensures nv == if user in users && sha1 != "" && old(Has(user, sha1)) then Saved(pubKeys) else old(nv)
    {
      if user !in users || sha1 == "" {
        return false;
      }
      if user !in pubKeys {
        return false;
      }
      if sha1 in pubKeys[user] {
        KeysAreLower(user, sha1);
        MoveKey(user, sha1, sha256);
        return true;
      }
      return sha256 in pubKeys[user];
    }

    lemma KeysAreLower(user: string, key: string)
      requires Valid() && Has(user, key)
      ensures Lower(key) == key
    {
      assert Linked(keyToUser, key, user);
    }

    /** The EXTERNAL mechanism: the fingerprints of the client's certificate, the user it asks for
        (empty if any will do), the users that exist. */
    method OnClientSASLAuthenticate(sha1: string, sha256: string, wanted: string, users: set<string>)
        returns (verdict: Verdict)
      requires Valid()
      modifies this
      ensures Valid()
      ensures verdict == NoCertificate <==> sha1 == ""
      ensures sha1 == "" ==> pubKeys == old(pubKeys) && keyToUser == old(keyToUser)
      ensures sha1 != "" ==>
                forall u, k :: Has(u, k) <==>
                  if u in users && old(Has(u, sha1)) then k != sha1 && (old(Has(u, k)) || k == Lower(sha256))
                  else old(Has(u, k))
      ensures nv == if sha1 != "" && exists u :: u in users && old(Has(u, sha1)) then Saved(pubKeys) else old(nv)
      ensures verdict != EmptyUserList
      ensures sha1 != "" ==> (verdict == NotRecognised <==> forall u :: !Has(u, sha256))
      ensures verdict == NoSuchUser <==>
                && sha1 != "" && At(keyToUser, sha256) != {}
                && (if wanted == "" then InOrder(At(keyToUser, sha256))[0] !in users
                    else wanted in At(keyToUser, sha256) && wanted !in users)
      ensures verdict == NotThisUser ==> wanted != "" && !Has(wanted, sha256)
      ensures verdict.Accepted? ==>
                Has(verdict.user, sha256) && verdict.user in users && (wanted == "" || wanted == verdict.user)
      ensures verdict.Accepted? && wanted == "" ==> verdict.user == InOrder(At(keyToUser, sha256))[0]
      ensures sha1 != "" && wanted != "" && wanted in users && Has(wanted, sha256) ==> verdict == Accepted(wanted)
      ensures sha1 != "" && wanted == "" && (exists u :: Has(u, sha256)) ==>
                (forall u :: Has(u, sha256) ==> u in users) ==> verdict.Accepted?
    {
      if sha1 == "" {
        return NoCertificate;
      }
      Migrate(sha1, sha256, users);
      if sha256 !in keyToUser {
        assert forall u :: !Linked(keyToUser, sha256, u);
        return NotRecognised;
      }
      var holders := keyToUser[sha256];
      if holders == {} {
        return EmptyUserList;
      }
      var order := InOrder(holders);
      assert order[0] in order;
      assert forall u :: u in holders <==> Linked(keyToUser, sha256, u);
      assert Has(order[0], sha256);
      var user := wanted;
      if user == "" {
        user := order[0];
      } else if user !in holders {
        return NotThisUser;
      }
      assert Has(user, sha256);
      if user !in users {
        return NoSuchUser;
      }
      return Accepted(user);
    }
  }

  // ----- Storing and loading -----

  predicate Storable(k: string) {
    k != "" && ' ' !in k
  }

  lemma {:induction false} SplitJoined(keys: seq<string>)
    requires forall i :: 0 <= i < |keys| ==> Storable(keys[i])
    ensures Split(Joined(keys), ' ') == keys
  {
    if keys == [] {
      assert Split("", ' ') == [];
    } else {
      var rest := Joined(keys[1..]);
      SplitJoined(keys[1..]);
      assert keys[0] + " " + rest == keys[0] + ([' '] + rest);
      SplitFront(keys[0], ' ', [' '] + rest);
      SplitSkip(' ', rest);
    }
  }

  lemma LoadedIsStorable(value: string, k: string)
    requires k in Loaded(value)
    ensures Storable(k)
  {
    var piece :| piece in Split(value, ' ') && k == Lower(piece);
    var i :| 0 <= i < |Split(value, ' ')| && Split(value, ' ')[i] == piece;
    SplitPieces(value, ' ', i);
    forall j | 0 <= j < |k| ensures k[j] != ' ' {
      assert piece[j] in piece;
    }
  }

  lemma SavedLoads(keys: set<string>)
    requires keys != {} && forall k :: k in keys ==> Storable(k) && Lower(k) == k
    ensures Joined(InOrder(keys)) != "" && Loaded(Joined(InOrder(keys))) == keys
  {
    var order := InOrder(keys);
    forall i | 0 <= i < |order| ensures Storable(order[i]) {
      assert order[i] in order;
    }
    SplitJoined(order);
    assert order != [];
    forall k ensures k in Lowered(order) <==> k in keys {
    }
  }

  lemma SavedUser(pubKeys: Index, u: string, users: set<string>)
    requires u in pubKeys && pubKeys[u] != {}
    requires forall k :: Linked(pubKeys, u, k) ==> u in users && Storable(k) && Lower(k) == k
    ensures u in users && u in Saved(pubKeys) && Loaded(Saved(pubKeys)[u]) == pubKeys[u]
  {
    assert forall k :: k in pubKeys[u] ==> Linked(pubKeys, u, k);
    SavedLoads(pubKeys[u]);
    var k :| k in pubKeys[u];
  }

  /** Storing the keys and loading them into an empty module, for the users existing then, gives back
      exactly the same keys if and only if all their users exist and every key is nonempty and free
      of spaces. */
  lemma ReloadsIffStorable(pubKeys: Index, keyToUser: Index, users: set<string>)
    requires Inverse(pubKeys, keyToUser)
    ensures (forall u, k :: Grants(Saved(pubKeys), users, u, k) <==> Linked(pubKeys, u, k))
       <==> (forall u, k :: Linked(pubKeys, u, k) ==> u in users && Storable(k))
  {
    var nv := Saved(pubKeys);
    if forall u, k :: Linked(pubKeys, u, k) ==> u in users && Storable(k) {
      forall u, k ensures Grants(nv, users, u, k) <==> Linked(pubKeys, u, k) {
        if u in pubKeys {
          SavedUser(pubKeys, u, users);
        }
      }
    }
    if forall u, k :: Grants(nv, users, u, k) <==> Linked(pubKeys, u, k) {
      forall u, k | Linked(pubKeys, u, k) ensures u in users && Storable(k) {
        assert Grants(nv, users, u, k);
        LoadedIsStorable(nv[u], k);
      }
    }
  }

  /** A key with a space in it is stored and comes back as two others. */
  lemma SpacedKeyIsLost()
    ensures var pubKeys, keyToUser: Index := map["u" := {"a b"}], map["a b" := {"u"}];
            && Inverse(pubKeys, keyToUser)
            && !(forall u, k :: Grants(Saved(pubKeys), {"u"}, u, k) <==> Linked(pubKeys, u, k))
  {
    var pubKeys: Index, keyToUser: Index := map["u" := {"a b"}], map["a b" := {"u"}];
    forall u, k ensures Linked(pubKeys, u, k) <==> Linked(keyToUser, k, u) {
    }
    assert Lower("a b") == "a b";
    assert "a b"[1] == ' ';
    assert Linked(pubKeys, "u", "a b") && !Storable("a b");
    ReloadsIffStorable(pubKeys, keyToUser, {"u"});
  }
}
