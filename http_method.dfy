/**
  The HTTP method registry: a closed set of six request methods, each with a
  flag saying whether a body is expected, and a lookup from a loosely written
  name to the method.  The lookup deletes every whitespace character, folds
  ASCII letters to upper case, and consults a name-to-method table that is
  built on the first lookup and kept from then on.
 */
module HttpMethods {
  import opened Wrappers

  /** The enum constants, in declaration order. */
  datatype Method = POST | GET | PUT | PATCH | HEAD | DELETE

  /** What `values()` returns: every constant once, in declaration order. */
  const AllMethods: seq<Method> := [POST, GET, PUT, PATCH, HEAD, DELETE]

  lemma AllMethodsListsEveryConstant()
    ensures forall m: Method :: m in AllMethods
  {
    forall m: Method ensures m in AllMethods {
      match m
      case POST => assert AllMethods[0] == m;
      case GET => assert AllMethods[1] == m;
      case PUT => assert AllMethods[2] == m;
      case PATCH => assert AllMethods[3] == m;
      case HEAD => assert AllMethods[4] == m;
      case DELETE => assert AllMethods[5] == m;
    }
  }

  // ---------------------------------------------------------------------------
  // Names and the body flag
  // ---------------------------------------------------------------------------

  predicate IsUpperAsciiLetter(c: char) {
    'A' <= c <= 'Z'
  }

  /** The constant's `name()`: its identifier, a non-empty run of capital letters. */
  function Name(m: Method): (s: string)
    ensures |s| > 0
    ensures forall i :: 0 <= i < |s| ==> IsUpperAsciiLetter(s[i])
  {
    match m
    case POST => "POST"
    case GET => "GET"
    case PUT => "PUT"
    case PATCH => "PATCH"
    case HEAD => "HEAD"
    case DELETE => "DELETE"
  }

  /** Distinct constants have distinct names, so the table has one key per constant. */
  lemma NameInjective(a: Method, b: Method)
    ensures Name(a) == Name(b) ==> a == b
  {
    if Name(a) == Name(b) {
      assert Name(a)[0] == Name(b)[0] && |Name(a)| == |Name(b)|;
      if Name(a)[0] == 'P' && |Name(a)| == 3 {
        assert Name(a)[1] == Name(b)[1];
      }
    }
  }

  /**
    The argument a constant passes to the enum constructor: HEAD is declared
    with `false`; the others use the no-argument constructor.
   */
  function DeclaredBodyFlag(m: Method): (flag: Option<bool>)
    ensures flag.Some? <==> m == HEAD
    ensures flag != Some(true)
  {
    match m
    case POST => None
    case GET => None
    case PUT => None
    case PATCH => None
    case HEAD => Some(false)
    case DELETE => None
  }

  /** `hasBody()`: the constructor argument, where the no-argument constructor supplies `true`. */
  function HasBody(m: Method): (b: bool)
    ensures b <==> m != HEAD
  {
    match DeclaredBodyFlag(m)
    case Some(flag) => flag
    case None => true
  }

  // ---------------------------------------------------------------------------
  // Normalisation of the input: replaceAll("\\s", "") then toUpperCase
  // ---------------------------------------------------------------------------

  /** The characters of the regular-expression class `\s`: space, \t, \n, \x0B, \f and \r. */
  predicate IsWhitespace(c: char) {
    c == ' ' || c == '\t' || c == '\n' || c == '\U{B}' || c == '\U{C}' || c == '\r'
  }

  /** By code point, the class is the space (32) and the control characters 9 to 13. */
  lemma WhitespaceCodePoints(c: char)
    ensures IsWhitespace(c) <==> c as int == 32 || 9 <= c as int <= 13
  {
  }

  predicate NoWhitespace(s: string) {
    forall i :: 0 <= i < |s| ==> !IsWhitespace(s[i])
  }

  /** The string with every whitespace character deleted, wherever it stands. */
  function StripWhitespace(s: string): (r: string)
    ensures |r| <= |s|
    ensures NoWhitespace(r)
    ensures NoWhitespace(s) ==> r == s
  {
    if s == [] then []
    else if IsWhitespace(s[0]) then StripWhitespace(s[1..])
    else [s[0]] + StripWhitespace(s[1..])
  }

  /** Deleting whitespace works piecewise: the pieces of a concatenation are stripped independently. */
  lemma {:induction false} StripWhitespaceConcat(a: string, b: string)
    ensures StripWhitespace(a + b) == StripWhitespace(a) + StripWhitespace(b)
  {
    if a != [] {
      assert (a + b)[1..] == a[1..] + b;
      StripWhitespaceConcat(a[1..], b);
    } else {
      assert a + b == b;
    }
  }

  /** Upper-casing under the English locale, restricted to ASCII: `a`..`z` become `A`..`Z`. */
  function ToUpperAscii(c: char): (u: char)
    ensures !('a' <= u <= 'z')
    ensures 'a' <= c <= 'z' ==> 'A' <= u <= 'Z' && u as int - 'A' as int == c as int - 'a' as int
    ensures !('a' <= c <= 'z') ==> u == c
    ensures IsWhitespace(u) <==> IsWhitespace(c)
  {
    if 'a' <= c <= 'z' then (c as int - 32) as char else c
  }

  /** The string upper-cased character by character. */
  function UpperCase(s: string): (r: string)
    ensures |r| == |s|
    ensures forall i :: 0 <= i < |s| ==> r[i] == ToUpperAscii(s[i])
  {
    if s == [] then [] else [ToUpperAscii(s[0])] + UpperCase(s[1..])
  }

  /** The ASCII lower-case form of a character: `A`..`Z` become `a`..`z`. */
  function ToLowerAscii(c: char): (l: char)
    ensures 'A' <= c <= 'Z' ==> 'a' <= l <= 'z' && l as int - 'a' as int == c as int - 'A' as int
    ensures !('A' <= c <= 'Z') ==> l == c
  {
    if 'A' <= c <= 'Z' then (c as int + 32) as char else c
  }

  /** The string lower-cased character by character, as a caller might write a method name. */
  function LowerCase(s: string): (r: string)
    ensures |r| == |s|
    ensures forall i :: 0 <= i < |s| ==> r[i] == ToLowerAscii(s[i])
  {
    if s == [] then [] else [ToLowerAscii(s[0])] + LowerCase(s[1..])
  }

  /** A string without lower-case ASCII letters is its own upper-case form. */
  lemma UpperCaseFixesUpper(s: string)
    requires forall i :: 0 <= i < |s| ==> !('a' <= s[i] <= 'z')
    ensures UpperCase(s) == s
  {
    assert forall i :: 0 <= i < |s| ==> UpperCase(s)[i] == s[i];
  }

  /** Upper-casing neither creates nor destroys whitespace, so the two steps commute. */
  lemma {:induction false} StripUpperCaseCommute(s: string)
    ensures StripWhitespace(UpperCase(s)) == UpperCase(StripWhitespace(s))
  {
    if s != [] {
      assert UpperCase(s)[1..] == UpperCase(s[1..]);
      StripUpperCaseCommute(s[1..]);
      if !IsWhitespace(s[0]) {
        assert UpperCase([s[0]] + StripWhitespace(s[1..]))
            == [ToUpperAscii(s[0])] + UpperCase(StripWhitespace(s[1..]));
      }
    }
  }

  /** The key that `getByName` looks up: whitespace deleted, then upper-cased. */
  function Normalize(name: string): (key: string)
    ensures |key| <= |name|
    ensures NoWhitespace(key)
    ensures forall i :: 0 <= i < |key| ==> !('a' <= key[i] <= 'z')
  {
    UpperCase(StripWhitespace(name))
  }

  /** A constant's name is already in normal form. */
  lemma NormalizeName(m: Method)
    ensures Normalize(Name(m)) == Name(m)
  {
    UpperCaseFixesUpper(Name(m));
  }

  // ---------------------------------------------------------------------------
  // The name-to-method table and the lookup
  // ---------------------------------------------------------------------------

  /** The table after `put(method.name(), method)` for each of `ms` in turn, starting from an empty map. */
  function TableOf(ms: seq<Method>): (table: map<string, Method>)
    ensures |table| <= |ms|
  {
    if ms == [] then map[]
    else TableOf(ms[..|ms| - 1])[Name(ms[|ms| - 1]) := ms[|ms| - 1]]
  }

  /** The table holds exactly the names of `ms`, each mapped to its own constant. */
  lemma {:induction false} TableOfContents(ms: seq<Method>)
    ensures forall k :: k in TableOf(ms) <==> exists m :: m in ms && Name(m) == k
    ensures forall m :: m in ms ==> Name(m) in TableOf(ms) && TableOf(ms)[Name(m)] == m
  {
    if ms != [] {
      var init, last := ms[..|ms| - 1], ms[|ms| - 1];
      assert ms == init + [last];
      TableOfContents(init);
      assert TableOf(ms) == TableOf(init)[Name(last) := last];
      forall m | m in ms
        ensures Name(m) in TableOf(ms) && TableOf(ms)[Name(m)] == m
      {
        NameInjective(m, last);
      }
      forall k | k in TableOf(ms)
        ensures exists m :: m in ms && Name(m) == k
      {
        if k != Name(last) {
          assert k in TableOf(init);
          var m :| m in init && Name(m) == k;
          assert m in ms;
        }
      }
    }
  }

  /** One more pass of the `put` loop adds the next constant under its name. */
  lemma TableOfPut(ms: seq<Method>, i: nat)
    requires i < |ms|
    ensures TableOf(ms[..i + 1]) == TableOf(ms[..i])[Name(ms[i]) := ms[i]]
  {
    assert ms[..i + 1][..i] == ms[..i];
  }

  /** The table `getByName` builds on its first call. */
  function CanonicalTable(): (table: map<string, Method>)
    ensures forall m :: Name(m) in table
    ensures forall k :: k in table ==> Name(table[k]) == k
  {
    AllMethodsListsEveryConstant();
    TableOfContents(AllMethods);
    TableOf(AllMethods)
  }

  /** The finished table maps each of the six names to its own constant and holds no other key. */
  lemma CanonicalTableExact()
    ensures forall m :: Name(m) in CanonicalTable() && CanonicalTable()[Name(m)] == m
    ensures forall k :: k in CanonicalTable() ==> exists m :: Name(m) == k
  {
    TableOfContents(AllMethods);
    AllMethodsListsEveryConstant();
  }

  /** `Optional.ofNullable(table.get(key))`. */
  function Lookup(table: map<string, Method>, key: string): Option<Method> {
    if key in table then Some(table[key]) else None
  }

  /**
    What `getByName(name)` returns: the constant whose name is the normalised
    input, or nothing when no constant has that name.
   */
  function Resolve(name: string): (r: Option<Method>)
    ensures r.Some? ==> Name(r.value) == Normalize(name)
    ensures r.None? <==> forall m :: Name(m) != Normalize(name)
  {
    CanonicalTableExact();
    Lookup(CanonicalTable(), Normalize(name))
  }

  /** An independent reference: the first constant, in declaration order, whose name is `key`. */
  function FindByName(ms: seq<Method>, key: string): Option<Method> {
    if ms == [] then None
    else if Name(ms[0]) == key then Some(ms[0])
    else FindByName(ms[1..], key)
  }

  /** The search finds a constant of `ms` carrying the key exactly when there is one. */
  lemma {:induction false} FindByNameFinds(ms: seq<Method>, key: string)
    ensures FindByName(ms, key).Some? ==> FindByName(ms, key).value in ms && Name(FindByName(ms, key).value) == key
    ensures FindByName(ms, key).None? <==> forall m :: m in ms ==> Name(m) != key
  {
    if ms != [] {
      FindByNameFinds(ms[1..], key);
      assert forall m :: m in ms <==> m == ms[0] || m in ms[1..];
    }
  }

  /** The table lookup agrees with a linear search of `values()` on the normalised name. */
  lemma ResolveIsLinearSearch(name: string)
    ensures Resolve(name) == FindByName(AllMethods, Normalize(name))
  {
    var key := Normalize(name);
    FindByNameFinds(AllMethods, key);
    var found := FindByName(AllMethods, key);
    if found.Some? {
      NameInjective(found.value, Resolve(name).value);
    } else {
      AllMethodsListsEveryConstant();
    }
  }

  /** Round trip: every constant is found again by its own name. */
  lemma ResolveName(m: Method)
    ensures Resolve(Name(m)) == Some(m)
  {
    NormalizeName(m);
    NameInjective(m, Resolve(Name(m)).value);
  }

  /** Inserting a whitespace character at any position leaves the result unchanged (read backwards: so does removing one). */
  lemma ResolveIgnoresInsertedWhitespace(s: string, i: nat, c: char)
    requires i <= |s|
    requires IsWhitespace(c)
    ensures Resolve(s[..i] + [c] + s[i..]) == Resolve(s)
  {
    StripInsertedWhitespace(s[..i], c, s[i..]);
    assert s[..i] + s[i..] == s;
  }

  lemma StripInsertedWhitespace(a: string, c: char, b: string)
    requires IsWhitespace(c)
    ensures StripWhitespace(a + [c] + b) == StripWhitespace(a + b)
  {
    StripWhitespaceConcat(a + [c], b);
    StripWhitespaceConcat(a, [c]);
    StripWhitespaceConcat(a, b);
    assert StripWhitespace([c]) == [];
  }

  /** Whitespace anywhere is ignored: the input resolves as its whitespace-free form does. */
  lemma ResolveIgnoresWhitespace(s: string)
    ensures Resolve(s) == Resolve(StripWhitespace(s))
  {
  }

  /** Two inputs that agree up to the case of ASCII letters resolve alike. */
  lemma ResolveCaseInsensitive(s: string, t: string)
    requires |s| == |t|
    requires forall i :: 0 <= i < |s| ==> ToUpperAscii(s[i]) == ToUpperAscii(t[i])
    ensures Resolve(s) == Resolve(t)
  {
    StripUpperCaseCommute(s);
    StripUpperCaseCommute(t);
    assert UpperCase(s) == UpperCase(t);
  }

  /** In particular, upper-casing the input first changes nothing. */
  lemma ResolveUpperCase(s: string)
    ensures Resolve(UpperCase(s)) == Resolve(s)
  {
    ResolveCaseInsensitive(UpperCase(s), s);
  }

  /** A constant's name written in lower case finds that constant. */
  lemma ResolveLowerCaseName(m: Method)
    ensures Resolve(LowerCase(Name(m))) == Some(m)
  {
    var n := Name(m);
    forall i | 0 <= i < |n|
      ensures ToUpperAscii(LowerCase(n)[i]) == ToUpperAscii(n[i])
    {
      assert IsUpperAsciiLetter(n[i]);
    }
    ResolveCaseInsensitive(LowerCase(n), n);
    ResolveName(m);
  }

  /** An unknown name yields an empty result rather than a failure. */
  lemma ResolveUnknown(s: string)
    requires Normalize(s) !in {"POST", "GET", "PUT", "PATCH", "HEAD", "DELETE"}
    ensures Resolve(s) == None
  {
    forall m ensures Name(m) != Normalize(s) {
    }
  }

  // ---------------------------------------------------------------------------
  // The lazily built cache (the static field METHOD_CACHE)
  // ---------------------------------------------------------------------------

  /**
    The enum's static state.  `methodCache` is `METHOD_CACHE`: `None` while
    it is still null, then the table that the first lookup builds.
   */
  class Registry {
    var methodCache: Option<map<string, Method>>
    /** How many times the table has been built so far. */
    ghost var builds: nat

    /**
      The cache is either unbuilt or exactly the six canonical entries, and
      it has been built once if it is there and never if it is not.
     */
    ghost predicate Valid()
      reads this
    {
      (methodCache.None? <==> builds == 0) && builds <= 1 &&
      (methodCache.None? || methodCache.value == CanonicalTable())
    }

    /** Class initialisation: the static field starts out null. */
    constructor ()
      ensures Valid() && methodCache.None? && builds == 0
    {
      methodCache := None;
      builds := 0;
    }

    /**
      The first-call branch of `getByName`: an empty map is stored in the
      field first, then each constant of `values()` is put into it in place.
     */
    method BuildCache()
      modifies this
      ensures methodCache == Some(CanonicalTable())
      ensures builds == old(builds) + 1
    {
      builds := builds + 1;
      methodCache := Some(map[]);
      for i := 0 to |AllMethods|
        invariant methodCache == Some(TableOf(AllMethods[..i]))
        invariant builds == old(builds) + 1
      {
        var m := AllMethods[i];
        TableOfPut(AllMethods, i);
        methodCache := Some(methodCache.value[Name(m) := m]);
      }
      assert AllMethods[..|AllMethods|] == AllMethods;
    }

    /**
      `getByName`: builds the table on the first call only, then looks up the
      normalised name.  Later calls leave the cache as it is.
     */
    method GetByName(name: string) returns (r: Option<Method>)
      requires Valid()
      modifies this
      ensures Valid() && methodCache == Some(CanonicalTable())
      ensures old(methodCache).Some? ==> methodCache == old(methodCache)
      ensures builds == 1
      ensures builds == old(builds) + (if old(methodCache).None? then 1 else 0)
      ensures r == Resolve(name)
    {
      if methodCache.None? {
        BuildCache();
      }
      var fixed := Normalize(name);
      r := Lookup(methodCache.value, fixed);
    }
  }

  /** Two lookups in a row answer alike, and the table is built once in all. */
  method LookupTwice(reg: Registry, name: string) returns (first: Option<Method>, second: Option<Method>)
    requires reg.Valid()
    modifies reg
    ensures first == second == Resolve(name)
    ensures reg.methodCache == Some(CanonicalTable())
    ensures reg.builds == 1
  {
    first := reg.GetByName(name);
    second := reg.GetByName(name);
  }
}
