/**
 * The two collections the routes read and write, held in memory. A document's id is
 * its position (ids are handed out in creation order), so `findById` is indexing and
 * `findOne` is the first match in insertion order. The configuration the routes read
 * from the environment is kept beside them.
 */
module Store {
  import opened Wrappers
  import opened Users
  import opened Memorials
  import Collections

  /** A slug already used by some memorial. */
  ghost predicate UrlTaken(memorials: seq<Memorial>, url: string) {
    exists i :: 0 <= i < |memorials| && memorials[i].url == url
  }

  /** The inner loop of `generateUniqueUrl`: append one alphabet character per draw. */
  method SpellCandidate(draws: seq<nat>) returns (candidate: string)
    requires ValidDraws(draws)
    ensures candidate == Spell(draws)
  {
    candidate := "";
    for i := 0 to |draws|
      invariant ValidDraws(draws[..i])
      invariant candidate == Spell(draws[..i])
    {
      SpellExtend(draws, i);
      candidate := candidate + [UrlAlphabet[draws[i]]];
    }
    assert draws[..|draws|] == draws;
  }

  class Db {
    var users: seq<User>
    var memorials: seq<Memorial>

    /** `parseInt(process.env.MAGIC_LINK_MAX_USES)`; absent when unset or not a number. */
    const magicLinkMaxUsesEnv: Option<int>
    /** `parseInt(process.env.MAGIC_LINK_EXPIRE)`, in milliseconds. */
    const magicLinkExpireEnv: Option<int>
    /** `process.env.NODE_ENV === 'development'`. */
    const development: bool

    /**
     * What the schema's unique indexes, the pre-save hook and the routes maintain:
     * emails and slugs are unique, no password is stored as plaintext, and every
     * memorial's owner is a stored user.
     */
    ghost predicate Valid()
      reads this
    {
      && (forall i :: 0 <= i < |users| ==> NotPlaintext(users[i].password))
      && (forall i, j :: 0 <= i < j < |users| ==> users[i].email != users[j].email)
      && (forall i :: 0 <= i < |memorials| ==> memorials[i].owner < |users|)
      && (forall i, j :: 0 <= i < j < |memorials| ==> memorials[i].url != memorials[j].url)
    }

    constructor (magicLinkMaxUsesEnv: Option<int>, magicLinkExpireEnv: Option<int>, development: bool)
      ensures Valid() && users == [] && memorials == []
      ensures this.magicLinkMaxUsesEnv == magicLinkMaxUsesEnv && this.magicLinkExpireEnv == magicLinkExpireEnv
      ensures this.development == development
    {
      this.magicLinkMaxUsesEnv := magicLinkMaxUsesEnv;
      this.magicLinkExpireEnv := magicLinkExpireEnv;
      this.development := development;
      users := [];
      memorials := [];
    }

    /** `save()` on the user with id `i`: the document is replaced and its email kept. */
    method SaveUser(i: nat, u: User)
      requires Valid() && i < |users| && u.email == users[i].email && NotPlaintext(u.password)
      modifies this
      ensures Valid() && users == old(users)[i := u] && memorials == old(memorials)
    {
      users := users[i := u];
    }

    /** `User.create`: a new user whose email no stored user has. */
    method InsertUser(u: User)
      requires Valid() && NotPlaintext(u.password)
      requires forall i :: 0 <= i < |users| ==> users[i].email != u.email
      modifies this
      ensures Valid() && users == old(users) + [u] && memorials == old(memorials)
    {
      users := users + [u];
    }

    /** `save()` on the memorial with id `i`: its slug and owner are kept. */
    method SaveMemorial(i: nat, m: Memorial)
      requires Valid() && i < |memorials| && m.url == memorials[i].url && m.owner == memorials[i].owner
      modifies this
      ensures Valid() && memorials == old(memorials)[i := m] && users == old(users)
    {
      memorials := memorials[i := m];
    }

    /** `Memorial.create`: a memorial of a stored user under a slug no memorial has. */
    method InsertMemorial(m: Memorial)
      requires Valid() && m.owner < |users| && !UrlTaken(memorials, m.url)
      modifies this
      ensures Valid() && memorials == old(memorials) + [m] && users == old(users)
    {
      memorials := memorials + [m];
    }

    /**
     * `generateUniqueUrl(length)`: spell a candidate of `length` random characters and
     * repeat while a memorial already has it. Each element of `attempts` is one
     * attempt's draws of `Math.floor(Math.random() * 36)`; when every attempt collides
     * the result is absent.
     */
    method GenerateUniqueUrl(length: nat, attempts: seq<seq<nat>>) returns (url: Option<string>)
      requires forall k :: 0 <= k < |attempts| ==> |attempts[k]| == length && ValidDraws(attempts[k])
      ensures url.Some? ==> |url.value| == length && !UrlTaken(memorials, url.value)
      ensures url.Some? ==> forall k :: 0 <= k < |url.value| ==> url.value[k] in UrlAlphabet
      ensures url.Some? ==>
                exists k :: 0 <= k < |attempts| && url.value == Spell(attempts[k])
                            && forall j :: 0 <= j < k ==> UrlTaken(memorials, Spell(attempts[j]))
      ensures url.None? ==> forall k :: 0 <= k < |attempts| ==> UrlTaken(memorials, Spell(attempts[k]))
    {
      var k := 0;
      while k < |attempts|
        invariant 0 <= k <= |attempts|
        invariant forall j :: 0 <= j < k ==> UrlTaken(memorials, Spell(attempts[j]))
      {
        var candidate := SpellCandidate(attempts[k]);
        var existing := Collections.First(memorials, (m: Memorial) => m.url == candidate);
        if existing.None? {
          assert !UrlTaken(memorials, candidate);
          SpellAlphabet(attempts[k]);
          return Some(candidate);
        }
        assert UrlTaken(memorials, Spell(attempts[k]));
        k := k + 1;
      }
      return None;
    }
  }
}
