/**
 Blog addresses.  A blog has a fixed slug and an alias that its owner may change; the alias it gives up stays behind as
 an old alias that redirects.  Lookups try the cache, current aliases, old aliases and slugs, in that order.
 */
module Aliases {
  import opened Wrappers

  datatype Blog = Blog(slug: string, alias: Option<string>, owner: int)

  datatype OldAlias = OldAlias(blogId: int, redirectTo: string)

  /** The two tables, and the blog id cached under each identifier. */
  datatype Store = Store(blogs: map<int, Blog>, oldAliases: map<string, OldAlias>, cache: map<string, int>)

  datatype Error = NotFound | Forbidden | AliasInUse | UniqueViolation | BadFormat | UsedBefore

  /** A found blog, with the address to redirect to, if any. */
  datatype Found = Found(blogId: int, redirectTo: Option<string>)

  // ---- Names ----

  /** `replace("@", "")`: only the first occurrence goes. */
  function CleanAlias(s: string): (r: string)
    ensures '@' !in s ==> r == s
    ensures s != "" && s[0] == '@' ==> r == s[1..]
  {
    if s == "" then "" else if s[0] == '@' then s[1..] else [s[0]] + CleanAlias(s[1..])
  }

  predicate IsLetter(c: char) { 'a' <= c <= 'z' || 'A' <= c <= 'Z' }

  predicate IsDigit(c: char) { '0' <= c <= '9' }

  predicate IsJoiner(c: char) { c == '-' || c == '_' }

  /**
   Length, character set, no two joiners in a row, none at either end, not only digits, no character three times
   running. The remaining checks of the source (wide characters, address and domain shapes) cannot fail once these
   hold.
   */
  predicate ValidateAliasFormat(alias: string) {
    && 3 <= |alias| <= 30
    && (forall i | 0 <= i < |alias| :: IsLetter(alias[i]) || IsDigit(alias[i]) || IsJoiner(alias[i]))
    && (forall i | 1 <= i < |alias| :: !(IsJoiner(alias[i]) && IsJoiner(alias[i - 1])))
    && !IsJoiner(alias[0]) && !IsJoiner(alias[|alias| - 1])
    && !(forall i | 0 <= i < |alias| :: IsDigit(alias[i]))
    && (forall i | 2 <= i < |alias| :: !(alias[i] == alias[i - 1] == alias[i - 2]))
  }

  function ToLower(s: string): string {
    if s == "" then "" else [if 'A' <= s[0] <= 'Z' then s[0] - 'A' + 'a' else s[0]] + ToLower(s[1..])
  }

  /** A name in use: JavaScript treats both a missing and an empty alias as none. */
  predicate Truthy(alias: Option<string>) {
    alias.Some? && alias.value != ""
  }

  // ---- Lookup ----

  predicate HasAlias(s: Store, id: int, name: string) {
    id in s.blogs && s.blogs[id].alias == Some(name)
  }

  predicate HasSlug(s: Store, id: int, name: string) {
    id in s.blogs && s.blogs[id].slug == name
  }

  ghost predicate UniqueNames(s: Store) {
    && (forall i, j, n | HasAlias(s, i, n) && HasAlias(s, j, n) :: i == j)
    && (forall i, j, n | HasSlug(s, i, n) && HasSlug(s, j, n) :: i == j)
  }

  ghost function FindByAlias(s: Store, name: string): Option<int> {
    if exists id :: HasAlias(s, id, name) then
      var id :| HasAlias(s, id, name);
      Some(id)
    else None
  }

  ghost function FindBySlug(s: Store, name: string): Option<int> {
    if exists id :: HasSlug(s, id, name) then
      var id :| HasSlug(s, id, name);
      Some(id)
    else None
  }

  function Address(blog: Blog): string {
    if Truthy(blog.alias) then "@" + blog.alias.value else blog.slug
  }

  /**
   What the tables answer: current alias, else old alias with a redirect, else slug with a redirect when there is an
   alias.
   */
  ghost function Resolve(s: Store, name: string): Option<Found> {
    var byAlias := FindByAlias(s, name);
    if byAlias.Some? then Some(Found(byAlias.value, None))
    else if name in s.oldAliases && s.oldAliases[name].blogId in s.blogs then
      Some(Found(s.oldAliases[name].blogId, Some(Address(s.blogs[s.oldAliases[name].blogId]))))
    else
      var bySlug := FindBySlug(s, name);
      if bySlug.None? then None
      else if Truthy(s.blogs[bySlug.value].alias) && name != s.blogs[bySlug.value].alias.value then
        Some(Found(bySlug.value, Some(Address(s.blogs[bySlug.value]))))
      else Some(Found(bySlug.value, None))
  }

  /** An answer read from the cache carries no redirect; answers found through an old alias are not cached. */
  ghost function LookupOn(s: Store, identifier: string): (Store, Result<Found, Error>) {
    var name := CleanAlias(identifier);
    if name in s.cache then (s, Ok(Found(s.cache[name], None)))
    else
      var found := Resolve(s, name);
      if found.None? then (s, Err(NotFound))
      else if FindByAlias(s, name).None? && name in s.oldAliases
          && s.oldAliases[name].blogId in s.blogs then (s, Ok(found.value))
      else (s.(cache := s.cache[name := found.value.blogId]), Ok(found.value))
  }

  // ---- Updates ----

  function Redirected(oldAliases: map<string, OldAlias>, id: int, target: string): map<string, OldAlias> {
    map n | n in oldAliases :: if oldAliases[n].blogId == id then OldAlias(id, target) else oldAliases[n]
  }

  function Archived(s: Store, id: int, target: string): map<string, OldAlias>
    requires id in s.blogs
  {
    if Truthy(s.blogs[id].alias)
    then Redirected(s.oldAliases, id, target)[s.blogs[id].alias.value := OldAlias(id, target)]
    else s.oldAliases
  }

  function Dropped(cache: map<string, int>, alias: Option<string>): map<string, int> {
    if Truthy(alias) then cache - {alias.value} else cache
  }

  ghost predicate TakenByOther(s: Store, id: int, name: string) {
    exists other :: other != id && HasAlias(s, other, name)
  }

  ghost function UpdateError(s: Store, id: int, clean: string, user: int): Option<Error> {
    if id !in s.blogs then Some(NotFound)
    else if s.blogs[id].owner != user then Some(Forbidden)
    else if TakenByOther(s, id, clean) then Some(AliasInUse)
    else if Truthy(s.blogs[id].alias) && s.blogs[id].alias.value in s.oldAliases then Some(UniqueViolation)
    else None
  }

  /** The tables and the cache after an accepted change. */
  function Changed(s: Store, id: int, clean: string): Store
    requires id in s.blogs
  {
    Store(s.blogs[id := s.blogs[id].(alias := Some(clean))], Archived(s, id, clean),
          Dropped(Dropped(s.cache, s.blogs[id].alias), Some(clean)))
  }

  ghost function UpdateOn(s: Store, id: int, newAlias: string, user: int): (Store, Result<Blog, Error>) {
    var clean := CleanAlias(newAlias);
    var error := UpdateError(s, id, clean, user);
    if error.Some? then (s, Err(error.value)) else (Changed(s, id, clean), Ok(Changed(s, id, clean).blogs[id]))
  }

  ghost predicate Available(s: Store, reserved: set<string>, alias: string) {
    && ValidateAliasFormat(alias)
    && ToLower(alias) !in reserved
    && (forall id :: !HasAlias(s, id, alias))
    && alias !in s.oldAliases
  }

  // ---- What the format check refuses ----

  predicate Plain(c: char) {
    c in "abcdefghijklmnopqrstuvwxyz" || c in "ABCDEFGHIJKLMNOPQRSTUVWXYZ" || c in "0123456789" || c in "-_"
  }

  lemma InRange(c: char, range: string)
    requires |range| > 0 && forall i | 0 <= i < |range| :: range[i] as int == range[0] as int + i
    ensures c in range <==> range[0] as int <= c as int < range[0] as int + |range|
  {
    if range[0] as int <= c as int < range[0] as int + |range| {
      assert range[c as int - range[0] as int] == c;
    }
  }

  lemma CharacterClasses(c: char)
    ensures IsLetter(c) <==> c in "abcdefghijklmnopqrstuvwxyz" || c in "ABCDEFGHIJKLMNOPQRSTUVWXYZ"
    ensures IsDigit(c) <==> c in "0123456789"
    ensures IsJoiner(c) <==> c in "-_"
  {
    InRange(c, "abcdefghijklmnopqrstuvwxyz");
    InRange(c, "ABCDEFGHIJKLMNOPQRSTUVWXYZ");
    InRange(c, "0123456789");
  }

  /** The reasons for a refusal, one by one. */
  lemma FormatRefusedIff(alias: string)
    ensures !ValidateAliasFormat(alias) <==>
            || |alias| < 3 || |alias| > 30
            || (exists c | c in alias :: !Plain(c))
            || (exists i | 0 < i < |alias| :: alias[i - 1] in "-_" && alias[i] in "-_")
            || alias[0] in "-_" || alias[|alias| - 1] in "-_"
            || (forall c | c in alias :: c in "0123456789")
            || (exists i | 1 < i < |alias| :: alias[i - 2] == alias[i - 1] && alias[i - 1] == alias[i])
  {
    forall c ensures (IsLetter(c) || IsDigit(c) || IsJoiner(c) <==> Plain(c))
      && (IsDigit(c) <==> c in "0123456789") && (IsJoiner(c) <==> c in "-_") { CharacterClasses(c); }
    if !ValidateAliasFormat(alias) && 3 <= |alias| <= 30 {
      if i :| 0 <= i < |alias| && !(IsLetter(alias[i]) || IsDigit(alias[i]) || IsJoiner(alias[i])) {
        assert alias[i] in alias && !Plain(alias[i]);
      }
    }
  }

  /** Upper-case letters turn into lower-case ones, and everything else stays. */
  lemma {:induction false} LowerCase(s: string, i: nat)
    requires i < |s|
    ensures |ToLower(s)| == |s|
    ensures ToLower(s)[i] as int == s[i] as int + if 65 <= s[i] as int <= 90 then 32 else 0
  {
    if |s| > 1 { LowerCase(s[1..], if i > 0 then i - 1 else 0); }
  }

  /** A name is available when its format is right, it is not reserved, and no blog has or had it. */
  lemma AvailableIff(s: Store, reserved: set<string>, alias: string)
    ensures Available(s, reserved, alias) <==>
            && ValidateAliasFormat(alias) && ToLower(alias) !in reserved
            && !(exists i :: i in s.blogs && s.blogs[i].alias == Some(alias)) && !(alias in s.oldAliases.Keys)
  {
    forall i ensures HasAlias(s, i, alias) <==> i in s.blogs && s.blogs[i].alias == Some(alias) {}
  }

  lemma AvailableIsClean(s: Store, reserved: set<string>, alias: string)
    requires Available(s, reserved, alias)
    ensures CleanAlias(alias) == alias && alias != "" && '@' !in alias
  {
  }

  // ---- What a change does ----

  /** `replace("@", "")` takes out the first occurrence and no other. */
  lemma {:induction false} CleanTakesFirst(a: string, b: string)
    requires '@' !in a
    ensures CleanAlias(a + "@" + b) == a + b
  {
    if a != "" {
      assert (a + "@" + b)[1..] == a[1..] + "@" + b;
      CleanTakesFirst(a[1..], b);
      assert a == [a[0]] + a[1..];
    }
  }

  /** The old names after a change: the blog's own redirect to the new name, and the one given up joins them. */
  predicate OldNamesFollow(s: Store, n: Store, id: int, clean: string)
    requires id in s.blogs
  {
    var past := s.blogs[id].alias;
    if past == None || past.value == "" then n.oldAliases == s.oldAliases
    else
      && n.oldAliases.Keys == s.oldAliases.Keys + {past.value}
      && forall x | x in n.oldAliases ::
           n.oldAliases[x] == if x == past.value || s.oldAliases[x].blogId == id then OldAlias(id, clean)
                              else s.oldAliases[x]
  }

  /**
   Exactly when a change is refused, and what an accepted one does: it answers with the blog under its new alias, no
   other blog and nothing else of this one changes, the old names follow, and both names leave the cache.
   */
  lemma UpdateMeans(s: Store, id: int, newAlias: string, user: int)
    ensures var (n, r) := UpdateOn(s, id, newAlias, user);
            var clean := CleanAlias(newAlias);
            && (r.Err? ==> n == s)
            && (r == Err(NotFound) <==> id !in s.blogs)
            && (r == Err(Forbidden) <==> id in s.blogs && s.blogs[id].owner != user)
            && (r == Err(AliasInUse) <==>
                  && id in s.blogs && s.blogs[id].owner == user
                  && exists other :: other in s.blogs && other != id && s.blogs[other].alias == Some(clean))
            && (r == Err(UniqueViolation) <==>
                  && id in s.blogs && s.blogs[id].owner == user
                  && (forall other | other in s.blogs && other != id :: s.blogs[other].alias != Some(clean))
                  && s.blogs[id].alias != None && s.blogs[id].alias.value != ""
                  && s.blogs[id].alias.value in s.oldAliases)
            && (r.Ok? ==>
                  && id in s.blogs && s.blogs[id].owner == user
                  && (forall other | other in s.blogs && other != id :: s.blogs[other].alias != Some(clean))
                  && r.value == Blog(s.blogs[id].slug, Some(clean), user)
                  && n.blogs == s.blogs[id := r.value]
                  && OldNamesFollow(s, n, id, clean)
                  && (forall x :: x in n.cache <==>
                        x in s.cache && (x == "" || (x != clean && s.blogs[id].alias != Some(x))))
                  && (forall x | x in n.cache :: n.cache[x] == s.cache[x]))
  {
    var clean := CleanAlias(newAlias);
    if id in s.blogs {
      forall other ensures other != id && HasAlias(s, other, clean) <==>
          other in s.blogs && other != id && s.blogs[other].alias == Some(clean) {}
    }
  }

  // ---- Invariants ----

  /** No name is both current and old: with unique aliases, one owner per name ever used. */
  ghost predicate Permanent(s: Store) {
    forall id, n | HasAlias(s, id, n) :: n !in s.oldAliases
  }

  /** Old names belong to blogs that now have another alias, and all of them redirect straight to it. */
  ghost predicate RedirectsCurrent(s: Store) {
    forall n | n in s.oldAliases ::
      n != "" && s.oldAliases[n].blogId in s.blogs
          && s.blogs[s.oldAliases[n].blogId].alias == Some(s.oldAliases[n].redirectTo)
  }

  ghost predicate NoEmptyNames(s: Store) {
    forall id | id in s.blogs :: s.blogs[id].alias != Some("") && s.blogs[id].slug != ""
  }

  /** Every cached identifier names the blog the tables would name. */
  ghost predicate CacheAgrees(s: Store) {
    forall n | n in s.cache :: Resolve(s, n).Some? && Resolve(s, n).value.blogId == s.cache[n]
  }

  lemma FindsAlias(s: Store, id: int, name: string)
    requires UniqueNames(s) && HasAlias(s, id, name)
    ensures FindByAlias(s, name) == Some(id)
  {
  }

  lemma FindsSlug(s: Store, id: int, name: string)
    requires UniqueNames(s) && HasSlug(s, id, name)
    ensures FindBySlug(s, name) == Some(id)
  {
  }

  lemma FindsNoAlias(s: Store, name: string)
    requires forall id :: !HasAlias(s, id, name)
    ensures FindByAlias(s, name) == None
  {
  }

  // ---- What a lookup answers ----

  /** The blog's address for a redirect: `@` and its alias, or its slug while it has none. */
  function RedirectTo(blog: Blog): string {
    match blog.alias
    case Some(alias) => if alias == "" then blog.slug else "@" + alias
    case None => blog.slug
  }

  /**
   The answers in the order they are tried: the cache, a current alias, an old alias, a slug.  Only the last two
   redirect, and an answer from an old alias is not cached.
   */
  lemma LookupMeans(s: Store, identifier: string, id: int)
    requires UniqueNames(s)
    ensures var name, (n, r) := CleanAlias(identifier), LookupOn(s, identifier);
            var named := exists i :: i in s.blogs && s.blogs[i].alias == Some(name);
            var past := name in s.oldAliases && s.oldAliases[name].blogId in s.blogs;
            && n.blogs == s.blogs && n.oldAliases == s.oldAliases
            && (name in s.cache ==> r == Ok(Found(s.cache[name], None)) && n == s)
            && (name !in s.cache && id in s.blogs && s.blogs[id].alias == Some(name) ==>
                  r == Ok(Found(id, None)) && n.cache == s.cache[name := id])
            && (name !in s.cache && !named && past && s.oldAliases[name].blogId == id ==>
                  r == Ok(Found(id, Some(RedirectTo(s.blogs[id])))) && n == s)
            && (name !in s.cache && !named && !past && id in s.blogs && s.blogs[id].slug == name ==>
                  && r == Ok(Found(id, if s.blogs[id].alias == None || s.blogs[id].alias == Some("") then None
                                       else Some(RedirectTo(s.blogs[id]))))
                  && n.cache == s.cache[name := id])
            && (name !in s.cache && !named && !past && (forall i | i in s.blogs :: s.blogs[i].slug != name) ==>
                  r == Err(NotFound) && n == s)
  {
    var name := CleanAlias(identifier);
    forall i ensures HasAlias(s, i, name) <==> i in s.blogs && s.blogs[i].alias == Some(name) {}
    forall i ensures HasSlug(s, i, name) <==> i in s.blogs && s.blogs[i].slug == name {}
    if HasAlias(s, id, name) {
      FindsAlias(s, id, name);
    } else if HasSlug(s, id, name) {
      FindsSlug(s, id, name);
    }
  }

  lemma ChangedNames(s: Store, id: int, clean: string)
    requires id in s.blogs
    ensures var n := Changed(s, id, clean);
            && (forall i, x :: HasAlias(n, i, x) <==> if i == id then x == clean else HasAlias(s, i, x))
            && (forall i, x :: HasSlug(n, i, x) <==> HasSlug(s, i, x))
  {
  }

  lemma ChangeKeepsUnique(s: Store, id: int, clean: string, user: int)
    requires UniqueNames(s) && UpdateError(s, id, clean, user).None?
    ensures UniqueNames(Changed(s, id, clean))
  {
    ChangedNames(s, id, clean);
  }

  lemma ChangeKeepsRedirects(s: Store, id: int, clean: string)
    requires id in s.blogs && RedirectsCurrent(s) && NoEmptyNames(s)
    ensures RedirectsCurrent(Changed(s, id, clean))
  {
    var n := Changed(s, id, clean);
    forall x | x in n.oldAliases
      ensures x != "" && n.oldAliases[x].blogId in n.blogs
          && n.blogs[n.oldAliases[x].blogId].alias == Some(n.oldAliases[x].redirectTo)
    {
      if x in s.oldAliases && s.oldAliases[x].blogId == id { assert Truthy(s.blogs[id].alias); }
    }
  }

  /**
   Exactly when an accepted change keeps names permanent: the new name is not an old one, and the blog is not given the
   alias it already has.  Both are what the availability check refuses, and the update itself does not make that check.
   */
  lemma ChangeKeepsPermanentIff(s: Store, id: int, clean: string, user: int)
    requires UniqueNames(s) && Permanent(s) && NoEmptyNames(s) && UpdateError(s, id, clean, user).None?
    ensures Permanent(Changed(s, id, clean)) <==> clean !in s.oldAliases && s.blogs[id].alias != Some(clean)
  {
    ChangedNames(s, id, clean);
    var n := Changed(s, id, clean);
    assert HasAlias(n, id, clean);
    assert forall x :: x in n.oldAliases <==> x in s.oldAliases || s.blogs[id].alias == Some(x) by {
      assert Truthy(s.blogs[id].alias) <==> s.blogs[id].alias.Some?;
    }
    forall i, x | i != id && HasAlias(s, i, x) ensures x !in n.oldAliases {
      assert HasAlias(s, id, x) ==> i == id;
    }
  }

  /**
   With permanent names, archiving a name never collides: the only errors left are a missing blog, a stranger, and a
   name in use.
   */
  lemma ArchiveNeverCollides(s: Store, id: int, clean: string, user: int)
    requires Permanent(s)
    ensures UpdateError(s, id, clean, user) != Some(UniqueViolation)
  {
    if id in s.blogs && Truthy(s.blogs[id].alias) { assert HasAlias(s, id, s.blogs[id].alias.value); }
  }

  // ---- Names stay with their blog ----

  ghost predicate Holds(s: Store, id: int, name: string) {
    HasAlias(s, id, name) || (name in s.oldAliases && s.oldAliases[name].blogId == id)
  }

  lemma HeldNamesStay(s: Store, id: int, clean: string, other: int, name: string)
    requires id in s.blogs && NoEmptyNames(s) && Permanent(s) && Holds(s, other, name)
    ensures Holds(Changed(s, id, clean), other, name)
  {
    ChangedNames(s, id, clean);
    if HasAlias(s, id, name) { assert Truthy(s.blogs[id].alias); }
  }

  /** A name a blog holds resolves to that blog, and to no other. */
  lemma HeldNameResolves(s: Store, id: int, name: string)
    requires UniqueNames(s) && Permanent(s) && RedirectsCurrent(s) && Holds(s, id, name)
    ensures Resolve(s, name).Some? && Resolve(s, name).value.blogId == id
  {
    if HasAlias(s, id, name) {
      FindsAlias(s, id, name);
    } else if exists other :: HasAlias(s, other, name) {
      assert false;
    } else {
      FindsNoAlias(s, name);
    }
  }

  /** Whatever redirects, redirects once: following the redirect lands on the same blog with no further redirect. */
  lemma OneHop(s: Store, name: string)
    requires UniqueNames(s) && RedirectsCurrent(s) && NoEmptyNames(s)
    requires Resolve(s, name).Some? && Resolve(s, name).value.redirectTo.Some?
    ensures Resolve(s, CleanAlias(Resolve(s, name).value.redirectTo.value)) ==
        Some(Found(Resolve(s, name).value.blogId, None))
  {
    var found := Resolve(s, name).value;
    var blog := s.blogs[found.blogId];
    assert Truthy(blog.alias);
    assert found.redirectTo == Some("@" + blog.alias.value);
    assert CleanAlias("@" + blog.alias.value) == blog.alias.value;
    FindsAlias(s, found.blogId, blog.alias.value);
  }

  /** A blog is reached by its slug exactly when no other blog holds that word as an alias, current or old. */
  lemma SlugReachesIff(s: Store, id: int)
    requires UniqueNames(s) && Permanent(s) && RedirectsCurrent(s) && id in s.blogs
    ensures (Resolve(s, s.blogs[id].slug).Some? && Resolve(s, s.blogs[id].slug).value.blogId == id)
            <==> forall other :: other != id ==> !Holds(s, other, s.blogs[id].slug)
  {
    var slug := s.blogs[id].slug;
    if other :| other != id && Holds(s, other, slug) {
      HeldNameResolves(s, other, slug);
    } else {
      FindsSlug(s, id, slug);
      assert HasSlug(s, id, slug);
      if slug in s.oldAliases { assert Holds(s, s.oldAliases[slug].blogId, slug); }
      if FindByAlias(s, slug).Some? { assert Holds(s, FindByAlias(s, slug).value, slug); }
    }
  }

  // ---- The cache ----

  /** A change of alias cannot move any name except the two that are dropped from the cache. */
  lemma OtherNamesUnmoved(s: Store, id: int, clean: string, user: int, name: string)
    requires UniqueNames(s) && RedirectsCurrent(s) && UpdateError(s, id, clean, user).None?
    requires name != clean && s.blogs[id].alias != Some(name)
    requires Resolve(s, name).Some?
    ensures Resolve(Changed(s, id, clean), name).Some?
    ensures Resolve(Changed(s, id, clean), name).value.blogId == Resolve(s, name).value.blogId
  {
    var n := Changed(s, id, clean);
    ChangedNames(s, id, clean);
    ChangeKeepsUnique(s, id, clean, user);
    if i :| HasAlias(s, i, name) {
      FindsAlias(s, i, name);
      FindsAlias(n, i, name);
    } else {
      FindsNoAlias(s, name);
      FindsNoAlias(n, name);
      assert name in n.oldAliases <==> name in s.oldAliases;
      if name !in s.oldAliases {
        var i := FindBySlug(s, name).value;
        FindsSlug(n, i, name);
      }
    }
  }

  /**
   An empty alias escapes invalidation: if it was looked up before the change, the cache still answers for it and the
   tables do not.
   */
  lemma EmptyAliasStaysCached(s: Store, id: int, clean: string, user: int)
    requires UniqueNames(s) && UpdateError(s, id, clean, user).None? && clean != ""
    requires s.blogs[id].alias == Some("") && "" !in s.oldAliases && (forall i :: !HasSlug(s, i, ""))
    requires "" in s.cache
    ensures "" in Changed(s, id, clean).cache && Resolve(Changed(s, id, clean), "") == None
  {
    var n := Changed(s, id, clean);
    ChangedNames(s, id, clean);
    forall i ensures !HasAlias(n, i, "") {
      if i != id && HasAlias(s, i, "") { assert HasAlias(s, id, ""); assert false; }
    }
    FindsNoAlias(n, "");
  }

  /** A cached name the change does not touch, or the empty alias taken once more, still resolves as cached. */
  lemma CachedNameSurvives(s: Store, id: int, clean: string, user: int, x: string)
    requires UniqueNames(s) && RedirectsCurrent(s) && CacheAgrees(s) && UpdateError(s, id, clean, user).None?
    requires "" !in s.oldAliases && forall i :: !HasSlug(s, i, "")
    requires x in Changed(s, id, clean).cache && !(x == "" && s.blogs[id].alias == Some("") && clean != "")
    ensures var n := Changed(s, id, clean); Resolve(n, x).Some? && Resolve(n, x).value.blogId == n.cache[x]
  {
    var n := Changed(s, id, clean);
    ChangedNames(s, id, clean);
    ChangeKeepsUnique(s, id, clean, user);
    if s.blogs[id].alias == Some(x) {
      assert x == "" && clean == "";
      FindsAlias(s, id, x);
      FindsAlias(n, id, x);
    } else if x == clean {
      assert x == "";
      FindsNoAlias(s, x);
      assert false;
    } else {
      OtherNamesUnmoved(s, id, clean, user, x);
    }
  }

  /**
   Exactly when an accepted change leaves the cache true: unless the blog gives up the empty alias after it was looked
   up. The update accepts an empty alias, since it checks neither format nor availability.
   */
  lemma ChangeKeepsCacheIff(s: Store, id: int, clean: string, user: int)
    requires UniqueNames(s) && RedirectsCurrent(s) && CacheAgrees(s) && UpdateError(s, id, clean, user).None?
    requires "" !in s.oldAliases && forall i :: !HasSlug(s, i, "")
    ensures CacheAgrees(Changed(s, id, clean)) <==> !(s.blogs[id].alias == Some("") && clean != "" && "" in s.cache)
  {
    var n := Changed(s, id, clean);
    if s.blogs[id].alias == Some("") && clean != "" && "" in s.cache {
      EmptyAliasStaysCached(s, id, clean, user);
    } else {
      forall x | x in n.cache ensures Resolve(n, x).Some? && Resolve(n, x).value.blogId == n.cache[x] {
        CachedNameSurvives(s, id, clean, user, x);
      }
    }
  }

  lemma ChangeKeepsCache(s: Store, id: int, clean: string, user: int)
    requires UniqueNames(s) && RedirectsCurrent(s) && NoEmptyNames(s) && CacheAgrees(s)
    requires UpdateError(s, id, clean, user).None?
    ensures CacheAgrees(Changed(s, id, clean))
  {
    forall i ensures !HasSlug(s, i, "") {}
    ChangeKeepsCacheIff(s, id, clean, user);
  }

  lemma LookupKeepsCache(s: Store, identifier: string)
    requires UniqueNames(s) && CacheAgrees(s)
    ensures CacheAgrees(LookupOn(s, identifier).0)
    ensures LookupOn(s, identifier).0.blogs == s.blogs && LookupOn(s, identifier).0.oldAliases == s.oldAliases
    ensures LookupOn(s, identifier).1.Ok? <==> Resolve(s, CleanAlias(identifier)).Some?
    ensures LookupOn(s, identifier).1.Ok? ==>
        LookupOn(s, identifier).1.value.blogId == Resolve(s, CleanAlias(identifier)).value.blogId
  {
    var n := LookupOn(s, identifier).0;
    forall x ensures Resolve(n, x) == Resolve(s, x) { SameTables(s, n, x); }
  }

  lemma SameTables(s: Store, n: Store, x: string)
    requires n.blogs == s.blogs && n.oldAliases == s.oldAliases && UniqueNames(s)
    ensures Resolve(n, x) == Resolve(s, x)
  {
    assert forall i, y :: HasAlias(n, i, y) <==> HasAlias(s, i, y);
    assert forall i, y :: HasSlug(n, i, y) <==> HasSlug(s, i, y);
    if i :| HasAlias(s, i, x) {
      FindsAlias(s, i, x);
      FindsAlias(n, i, x);
    }
    if i :| HasSlug(s, i, x) {
      FindsSlug(s, i, x);
      FindsSlug(n, i, x);
    }
  }

  // ---- Runs ----

  datatype Op =
    | Create(id: int, slug: string, owner: int)
    | Change(id: int, alias: string, user: int)
    | Lookup(identifier: string)

  /** New blogs come with fresh ids and slugs; a change is asked for only after the availability check passed. */
  ghost predicate Admissible(s: Store, reserved: set<string>, op: Op) {
    match op
    case Create(id, slug, _) => id !in s.blogs && slug != "" && forall i :: !HasSlug(s, i, slug)
    case Change(_, alias, _) => Available(s, reserved, alias)
    case Lookup(_) => true
  }

  function CreateOn(s: Store, id: int, slug: string, owner: int): Store {
    s.(blogs := s.blogs[id := Blog(slug, None, owner)])
  }

  ghost function Do(s: Store, op: Op): Store {
    match op
    case Create(id, slug, owner) => CreateOn(s, id, slug, owner)
    case Change(id, alias, user) => UpdateOn(s, id, alias, user).0
    case Lookup(identifier) => LookupOn(s, identifier).0
  }

  ghost predicate Good(s: Store) {
    UniqueNames(s) && Permanent(s) && RedirectsCurrent(s) && NoEmptyNames(s) && CacheAgrees(s)
  }

  lemma CreatedNames(s: Store, id: int, slug: string, owner: int)
    requires id !in s.blogs
    ensures var n := CreateOn(s, id, slug, owner);
            && (forall i, x :: HasAlias(n, i, x) <==> HasAlias(s, i, x))
            && (forall i, x :: HasSlug(n, i, x) <==> HasSlug(s, i, x) || (i == id && x == slug))
  {
  }

  lemma CreateKeepsResolve(s: Store, id: int, slug: string, owner: int, x: string)
    requires UniqueNames(s) && UniqueNames(CreateOn(s, id, slug, owner)) && RedirectsCurrent(s)
    requires id !in s.blogs && Resolve(s, x).Some?
    ensures Resolve(CreateOn(s, id, slug, owner), x) == Resolve(s, x)
  {
    var n := CreateOn(s, id, slug, owner);
    CreatedNames(s, id, slug, owner);
    if i :| HasAlias(s, i, x) {
      FindsAlias(s, i, x);
      FindsAlias(n, i, x);
    } else {
      FindsNoAlias(n, x);
      if x !in s.oldAliases {
        var i := FindBySlug(s, x).value;
        FindsSlug(n, i, x);
      }
    }
  }

  lemma CreateKeepsGood(s: Store, id: int, slug: string, owner: int)
    requires Good(s) && id !in s.blogs && slug != "" && forall i :: !HasSlug(s, i, slug)
    ensures Good(CreateOn(s, id, slug, owner))
  {
    var n := CreateOn(s, id, slug, owner);
    CreatedNames(s, id, slug, owner);
    assert UniqueNames(n);
    forall x | x in n.cache ensures Resolve(n, x).Some? && Resolve(n, x).value.blogId == n.cache[x] {
      CreateKeepsResolve(s, id, slug, owner, x);
    }
  }

  lemma AcceptedKeepsGood(s: Store, id: int, alias: string, user: int)
    requires Good(s) && UpdateError(s, id, alias, user).None?
    requires alias != "" && alias !in s.oldAliases && forall i :: !HasAlias(s, i, alias)
    ensures Good(Changed(s, id, alias))
  {
    assert !HasAlias(s, id, alias);
    ChangeKeepsUnique(s, id, alias, user);
    ChangeKeepsPermanentIff(s, id, alias, user);
    ChangeKeepsRedirects(s, id, alias);
    ChangeKeepsCache(s, id, alias, user);
  }

  lemma ChangeKeepsGood(s: Store, reserved: set<string>, id: int, alias: string, user: int)
    requires Good(s) && Available(s, reserved, alias)
    ensures Good(UpdateOn(s, id, alias, user).0)
    ensures UpdateOn(s, id, alias, user).1 != Err(UniqueViolation)
    ensures UpdateOn(s, id, alias, user).1.Ok? <==> id in s.blogs && s.blogs[id].owner == user
  {
    AvailableIsClean(s, reserved, alias);
    ArchiveNeverCollides(s, id, alias, user);
    if UpdateError(s, id, alias, user).None? {
      AcceptedKeepsGood(s, id, alias, user);
    }
  }

  lemma LookupKeepsGood(s: Store, identifier: string)
    requires Good(s)
    ensures Good(LookupOn(s, identifier).0)
  {
    LookupKeepsCache(s, identifier);
    var n := LookupOn(s, identifier).0;
    assert forall i, y :: HasAlias(n, i, y) <==> HasAlias(s, i, y);
    assert forall i, y :: HasSlug(n, i, y) <==> HasSlug(s, i, y);
  }

  lemma DoKeepsGood(s: Store, reserved: set<string>, op: Op)
    requires Good(s) && Admissible(s, reserved, op)
    ensures Good(Do(s, op))
  {
    match op
    case Create(id, slug, owner) => CreateKeepsGood(s, id, slug, owner);
    case Change(id, alias, user) => ChangeKeepsGood(s, reserved, id, alias, user);
    case Lookup(identifier) => LookupKeepsGood(s, identifier);
  }

  lemma DoKeepsHeld(s: Store, reserved: set<string>, op: Op, id: int, name: string)
    requires Good(s) && Admissible(s, reserved, op) && Holds(s, id, name)
    ensures Holds(Do(s, op), id, name)
  {
    match op
    case Create(i, slug, owner) =>
    case Change(i, alias, user) =>
      AvailableIsClean(s, reserved, alias);
      if UpdateError(s, i, alias, user).None? { HeldNamesStay(s, i, alias, id, name); }
    case Lookup(identifier) => LookupKeepsCache(s, identifier);
  }

  ghost predicate AdmissibleRun(s: Store, reserved: set<string>, ops: seq<Op>)
    decreases |ops|
  {
    ops == [] || (Admissible(s, reserved, ops[0]) && AdmissibleRun(Do(s, ops[0]), reserved, ops[1..]))
  }

  ghost function DoAll(s: Store, ops: seq<Op>): Store
    decreases |ops|
  {
    if ops == [] then s else DoAll(Do(s, ops[0]), ops[1..])
  }

  /**
   Names are permanent: over any run of creations, availability-checked changes and lookups, every name a blog held at
   any time keeps resolving to that blog, from the tables and from the cache alike.
   */
  lemma {:induction false} NamesArePermanent(s: Store, reserved: set<string>, ops: seq<Op>, id: int, name: string)
    requires Good(s) && AdmissibleRun(s, reserved, ops) && Holds(s, id, name)
    ensures Good(DoAll(s, ops)) && Holds(DoAll(s, ops), id, name)
    ensures Resolve(DoAll(s, ops), name).Some? && Resolve(DoAll(s, ops), name).value.blogId == id
    ensures name in DoAll(s, ops).cache ==> DoAll(s, ops).cache[name] == id
    decreases |ops|
  {
    if ops == [] {
      HeldNameResolves(s, id, name);
    } else {
      DoKeepsGood(s, reserved, ops[0]);
      DoKeepsHeld(s, reserved, ops[0], id, name);
      NamesArePermanent(Do(s, ops[0]), reserved, ops[1..], id, name);
    }
  }

  /**
   Over any run, whatever redirects does so once: the address it names lands on the same blog with no further
   redirect.
   */
  lemma {:induction false} RedirectsLandOnce(s: Store, reserved: set<string>, ops: seq<Op>, name: string)
    requires Good(s) && AdmissibleRun(s, reserved, ops)
    requires Resolve(DoAll(s, ops), name).Some? && Resolve(DoAll(s, ops), name).value.redirectTo.Some?
    ensures var n, found := DoAll(s, ops), Resolve(DoAll(s, ops), name).value;
            Resolve(n, CleanAlias(found.redirectTo.value)) == Some(Found(found.blogId, None))
    decreases |ops|
  {
    if ops == [] {
      OneHop(s, name);
    } else {
      DoKeepsGood(s, reserved, ops[0]);
      RedirectsLandOnce(Do(s, ops[0]), reserved, ops[1..], name);
    }
  }

  /** Over any run, a lookup names the blog the tables alone would name, whether or not the cache answers. */
  lemma {:induction false} CachedLookupsAgree(s: Store, reserved: set<string>, ops: seq<Op>, identifier: string)
    requires Good(s) && AdmissibleRun(s, reserved, ops)
    ensures var n := DoAll(s, ops);
            && (LookupOn(n, identifier).1.Ok? <==> Resolve(n, CleanAlias(identifier)).Some?)
            && (LookupOn(n, identifier).1.Ok? ==>
                  LookupOn(n, identifier).1.value.blogId == Resolve(n, CleanAlias(identifier)).value.blogId)
    decreases |ops|
  {
    if ops == [] {
      LookupKeepsCache(s, identifier);
    } else {
      DoKeepsGood(s, reserved, ops[0]);
      CachedLookupsAgree(Do(s, ops[0]), reserved, ops[1..], identifier);
    }
  }

  // ---- What the cache hides ----

  /** The tables redirect to a blog with an alias unless they were asked for that very alias. */
  lemma RedirectIff(s: Store, name: string)
    requires Good(s) && Resolve(s, name).Some?
    ensures var found := Resolve(s, name).value;
            && found.blogId in s.blogs
            && found.redirectTo == (if s.blogs[found.blogId].alias.Some? && s.blogs[found.blogId].alias != Some(name)
                                    then Some("@" + s.blogs[found.blogId].alias.value) else None)
  {
    if i :| HasAlias(s, i, name) {
      FindsAlias(s, i, name);
    } else {
      FindsNoAlias(s, name);
      var id := Resolve(s, name).value.blogId;
      assert !HasAlias(s, id, name);
      assert s.blogs[id].alias.Some? <==> Truthy(s.blogs[id].alias);
    }
  }

  /**
   Exactly when a lookup answers as the tables do, redirect included, over any run: unless the word is cached and
   differs from the blog's current alias.  A cached answer never carries a redirect.
   */
  lemma {:induction false} CachedLookupLosesRedirectIff(s: Store, reserved: set<string>, ops: seq<Op>,
      identifier: string)
    requires Good(s) && AdmissibleRun(s, reserved, ops) && Resolve(DoAll(s, ops), CleanAlias(identifier)).Some?
    ensures var n, name := DoAll(s, ops), CleanAlias(identifier);
            var found := Resolve(n, name).value;
            && found.blogId in n.blogs
            && (LookupOn(n, identifier).1 == Ok(found) <==> name !in n.cache || found.redirectTo.None?)
            && (LookupOn(n, identifier).1 == Ok(found) <==>
                  !(name in n.cache && n.blogs[found.blogId].alias.Some? && n.blogs[found.blogId].alias.value != name))
    decreases |ops|
  {
    if ops == [] {
      RedirectIff(s, CleanAlias(identifier));
    } else {
      DoKeepsGood(s, reserved, ops[0]);
      CachedLookupLosesRedirectIff(Do(s, ops[0]), reserved, ops[1..], identifier);
    }
  }

  // ---- Runs that reach the failures ----

  const NO_BLOGS := Store(map[], map[], map[])

  /** A blog by itself: what a lookup of its slug, its alias and a change of alias do to it. */
  lemma OneBlog(s: Store, id: int)
    requires s.blogs.Keys == {id}
    ensures UniqueNames(s)
    ensures forall name :: FindByAlias(s, name) == if s.blogs[id].alias == Some(name) then Some(id) else None
    ensures forall name :: FindBySlug(s, name) == if s.blogs[id].slug == name then Some(id) else None
    ensures forall name :: !TakenByOther(s, id, name)
  {
    forall name ensures FindByAlias(s, name) == if s.blogs[id].alias == Some(name) then Some(id) else None {
      assert HasAlias(s, id, name) <==> s.blogs[id].alias == Some(name);
    }
    forall name ensures FindBySlug(s, name) == if s.blogs[id].slug == name then Some(id) else None {
      assert HasSlug(s, id, name) <==> s.blogs[id].slug == name;
    }
  }

  lemma SlugReadTwice(id: int, owner: int, slug: string, alias: string)
    requires slug != "" && '@' !in slug && alias != "" && '@' !in alias && slug != alias
    ensures var named := UpdateOn(CreateOn(NO_BLOGS, id, slug, owner), id, alias, owner).0;
            var read := LookupOn(named, slug).0;
            && LookupOn(named, slug).1 == Ok(Found(id, Some("@" + alias)))
            && LookupOn(read, slug).1 == Ok(Found(id, None))
  {
    var created := CreateOn(NO_BLOGS, id, slug, owner);
    OneBlog(created, id);
    OneBlog(UpdateOn(created, id, alias, owner).0, id);
  }

  lemma MayCreateThenName(reserved: set<string>, id: int, owner: int, slug: string, alias: string)
    requires Available(NO_BLOGS, reserved, alias) && slug != ""
    ensures Admissible(NO_BLOGS, reserved, Create(id, slug, owner))
    ensures Admissible(CreateOn(NO_BLOGS, id, slug, owner), reserved, Change(id, alias, owner))
  {
  }

  /** A blog with an alias, its slug looked up twice: the first answer redirects, the second does not. */
  lemma SecondLookupLosesRedirect(reserved: set<string>, id: int, owner: int, slug: string, alias: string)
    requires Available(NO_BLOGS, reserved, alias) && slug != "" && '@' !in slug && slug != alias
    ensures var created := CreateOn(NO_BLOGS, id, slug, owner);
            var named := UpdateOn(created, id, alias, owner).0;
            var read := LookupOn(named, slug).0;
            && Admissible(NO_BLOGS, reserved, Create(id, slug, owner))
                && Admissible(created, reserved, Change(id, alias, owner))
            && LookupOn(named, slug).1 == Ok(Found(id, Some("@" + alias)))
            && LookupOn(read, slug).1 == Ok(Found(id, None))
  {
    AvailableIsClean(NO_BLOGS, reserved, alias);
    SlugReadTwice(id, owner, slug, alias);
    MayCreateThenName(reserved, id, owner, slug, alias);
  }

  /** "@" stores the empty alias; looked up and then changed, it stays in the cache and resolves to nothing. */
  lemma EmptyAliasRun(id: int, owner: int, slug: string, alias: string)
    requires slug != "" && alias != "" && '@' !in alias
    ensures var created := CreateOn(NO_BLOGS, id, slug, owner);
            var emptied := UpdateOn(created, id, "@", owner);
            var read := LookupOn(emptied.0, "@");
            var named := UpdateOn(read.0, id, alias, owner);
            && emptied.1.Ok? && read.1 == Ok(Found(id, None)) && named.1.Ok?
            && CacheAgrees(read.0) && !CacheAgrees(named.0)
            && LookupOn(named.0, "@").1 == Ok(Found(id, None)) && Resolve(named.0, "") == None
  {
    var created := CreateOn(NO_BLOGS, id, slug, owner);
    OneBlog(created, id);
    assert CleanAlias("@") == "";
    var emptied := UpdateOn(created, id, "@", owner).0;
    OneBlog(emptied, id);
    var read := LookupOn(emptied, "@").0;
    OneBlog(read, id);
    OneBlog(UpdateOn(read, id, alias, owner).0, id);
  }

  /** The update lets a blog take a name another gave up, and the name then leads to the wrong blog. */
  lemma GivenUpNameTaken(a: int, b: int, owner: int, other: int, past: string, next: string, slugA: string,
      slugB: string)
    requires a != b && past != "" && next != "" && past != next && '@' !in past && '@' !in next && slugA != slugB
    ensures var both := CreateOn(CreateOn(NO_BLOGS, a, slugA, owner), b, slugB, other);
            var first := UpdateOn(both, a, past, owner);
            var second := UpdateOn(first.0, a, next, owner);
            var third := UpdateOn(second.0, b, past, other);
            && first.1.Ok? && second.1.Ok? && third.1.Ok?
            && Holds(third.0, a, past) && Resolve(third.0, past) == Some(Found(b, None))
            && Permanent(second.0) && !Permanent(third.0)
  {
    var both := CreateOn(CreateOn(NO_BLOGS, a, slugA, owner), b, slugB, other);
    assert !TakenByOther(both, a, past);
    var first := UpdateOn(both, a, past, owner).0;
    assert !TakenByOther(first, a, next);
    var second := UpdateOn(first, a, next, owner).0;
    assert !TakenByOther(second, b, past);
    var third := UpdateOn(second, b, past, other).0;
    assert HasAlias(third, b, past) && forall i :: HasAlias(third, i, past) ==> i == b;
  }

  // ---- The service ----

  class BlogsService {
    const reserved: set<string>
    var blogs: map<int, Blog>
    var oldAliases: map<string, OldAlias>
    var cache: map<string, int>

    constructor (reserved: set<string>)
      ensures Tables() == Store(map[], map[], map[]) && this.reserved == reserved && Good(Tables())
    {
      this.reserved := reserved;
      blogs, oldAliases, cache := map[], map[], map[];
    }

    function Tables(): Store
      reads this
    {
      Store(blogs, oldAliases, cache)
    }

    method CheckAliasAvailability(alias: string) returns (r: Result<bool, Error>)
      ensures r.Ok? <==> Available(Tables(), reserved, alias)
      ensures r.Ok? ==> r.value
      ensures r == Err(BadFormat) <==> !ValidateAliasFormat(alias) || ToLower(alias) in reserved
      ensures r == Err(AliasInUse) <==>
              ValidateAliasFormat(alias) && ToLower(alias) !in reserved && exists id :: HasAlias(Tables(), id, alias)
      ensures r == Err(UsedBefore) <==>
              ValidateAliasFormat(alias) && ToLower(alias) !in reserved && (forall id :: !HasAlias(Tables(), id, alias))
                  && alias in oldAliases
    {
      if !ValidateAliasFormat(alias) || ToLower(alias) in reserved {
        return Err(BadFormat);
      }
      if id :| id in blogs && blogs[id].alias == Some(alias) {
        assert HasAlias(Tables(), id, alias);
        return Err(AliasInUse);
      }
      if alias in oldAliases {
        return Err(UsedBefore);
      }
      r := Ok(true);
    }

    /**
     One transaction: archive the current alias, point all old aliases at the new one, store it, then drop both names
     from the cache.
     */
    method UpdateAlias(blogId: int, newAlias: string, userId: int) returns (r: Result<Blog, Error>)
      modifies this
      ensures (Tables(), r) == UpdateOn(old(Tables()), blogId, newAlias, userId)
    {
      var cleanAlias := CleanAlias(newAlias);
      ghost var s := Tables();
      if blogId !in blogs {
        return Err(NotFound);
      }
      var blog := blogs[blogId];
      if blog.owner != userId {
        return Err(Forbidden);
      }
      if other :| other in blogs && other != blogId && blogs[other].alias == Some(cleanAlias) {
        assert HasAlias(s, other, cleanAlias);
        return Err(AliasInUse);
      }
      assert forall other :: other != blogId ==> !HasAlias(s, other, cleanAlias);
      if Truthy(blog.alias) {
        if blog.alias.value in oldAliases {
          return Err(UniqueViolation);
        }
        oldAliases := Redirected(oldAliases, blogId, cleanAlias);
        oldAliases := oldAliases[blog.alias.value := OldAlias(blogId, cleanAlias)];
      }
      var updated := blog.(alias := Some(cleanAlias));
      blogs := blogs[blogId := updated];
      InvalidateAliasCache(blog.alias, Some(cleanAlias));
      r := Ok(updated);
      assert UpdateError(s, blogId, cleanAlias, userId).None?;
    }

    method InvalidateAliasCache(oldAlias: Option<string>, newAlias: Option<string>)
      modifies this`cache
      ensures cache == Dropped(Dropped(old(cache), oldAlias), newAlias)
    {
      if Truthy(oldAlias) {
        cache := cache - {oldAlias.value};
      }
      if Truthy(newAlias) {
        cache := cache - {newAlias.value};
      }
    }

    method FindOneByIdentifier(identifier: string) returns (r: Result<Found, Error>)
      requires UniqueNames(Tables())
      modifies this`cache
      ensures (Tables(), r) == LookupOn(old(Tables()), identifier)
    {
      ghost var s := Tables();
      var name := CleanAlias(identifier);
      if name in cache {
        return Ok(Found(cache[name], None));
      }
      if id :| id in blogs && blogs[id].alias == Some(name) {
        FindsAlias(s, id, name);
        cache := cache[name := id];
        return Ok(Found(id, None));
      }
      assert forall id :: !HasAlias(s, id, name);
      if name in oldAliases && oldAliases[name].blogId in blogs {
        var blog := blogs[oldAliases[name].blogId];
        return Ok(Found(oldAliases[name].blogId, Some(Address(blog))));
      }
      if id :| id in blogs && blogs[id].slug == name {
        FindsSlug(s, id, name);
        var alias := blogs[id].alias;
        cache := cache[name := id];
        if Truthy(alias) && name != alias.value {
          return Ok(Found(id, Some("@" + alias.value)));
        }
        return Ok(Found(id, None));
      }
      assert forall id :: !HasSlug(s, id, name);
      r := Err(NotFound);
    }
  }
}
