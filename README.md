# HTTP method registry

A Dafny model of the `HttpMethod` enumeration of HTTP4J. The enumeration has six
request methods: POST, GET, PUT, PATCH, HEAD and DELETE. Each carries a `hasBody`
flag, which is false only for HEAD, as section 4.3.2 of RFC 7231 requires of
responses to HEAD. The static lookup `getByName` deletes every whitespace
character from its argument and upper-cases the rest. It then looks the result
up in the static table `METHOD_CACHE`, which is null until the first lookup
fills it with one entry per constant. An unknown name gives an empty result.
The lookup is case-insensitive, which departs from section 4.1 of RFC 7231
(method tokens are case-sensitive there); the model follows the code.

Files:

- `wrappers.dfy`: module `Wrappers`, the `Option` datatype standing for `java.util.Optional`.
- `http_method.dfy`: module `HttpMethods`, which has these parts:
  - the `Method` datatype, `Name` (`name()`) and `HasBody`;
  - the normalisation `Normalize` = `UpperCase(StripWhitespace(_))`;
  - the table `CanonicalTable` and the pure lookup `Resolve`;
  - the class `Registry`, whose field `methodCache` is the static `METHOD_CACHE`. `None` stands for null. On the first call its method `GetByName` runs `BuildCache`. That method stores an empty map in the field and then puts each constant into it with a loop. `GetByName` then looks up the key.

The input string is never null: the `@NotNull` annotation is the only
precondition, and a Dafny `string` cannot be null.

## Model

| member | source | states |
|---|---|---|
| HttpMethods.AllMethodsListsEveryConstant | src/main/java/com/intellectualsites/http/HttpMethod.java:41-66 | `values()` lists every declared constant |
| HttpMethods.Name | src/main/java/com/intellectualsites/http/HttpMethod.java:41-66 | a constant's name is a non-empty run of upper-case ASCII letters |
| HttpMethods.NameInjective | src/main/java/com/intellectualsites/http/HttpMethod.java:84 | distinct constants have distinct names, so each `put` adds its own key |
| HttpMethods.DeclaredBodyFlag | src/main/java/com/intellectualsites/http/HttpMethod.java:41-66 | HEAD is the only constant declared with a constructor argument, and that argument is `false` |
| HttpMethods.HasBody | src/main/java/com/intellectualsites/http/HttpMethod.java:72-98 | `hasBody()` is false exactly for HEAD (declared with `false`) and true for the five constants built by the no-argument constructor |
| HttpMethods.WhitespaceCodePoints | src/main/java/com/intellectualsites/http/HttpMethod.java:87 | the `\s` class is exactly code point 32 (space) and code points 9 to 13 (\t, \n, \x0B, \f, \r) |
| HttpMethods.StripWhitespace | src/main/java/com/intellectualsites/http/HttpMethod.java:87 | deleting `\s` characters leaves no whitespace, never lengthens, and leaves a whitespace-free string unchanged |
| HttpMethods.StripWhitespaceConcat | src/main/java/com/intellectualsites/http/HttpMethod.java:87 | whitespace deletion distributes over concatenation, so it keeps the order of the other characters |
| HttpMethods.StripInsertedWhitespace | src/main/java/com/intellectualsites/http/HttpMethod.java:87 | a whitespace character inserted anywhere disappears after deletion |
| HttpMethods.ToUpperAscii | src/main/java/com/intellectualsites/http/HttpMethod.java:87 | upper-casing turns each lower-case ASCII letter into the capital at the same alphabet position. It fixes every other character, never yields a lower-case letter, and preserves whitespace |
| HttpMethods.UpperCase | src/main/java/com/intellectualsites/http/HttpMethod.java:87 | `toUpperCase` keeps the length and upper-cases each position |
| HttpMethods.UpperCaseFixesUpper | src/main/java/com/intellectualsites/http/HttpMethod.java:87 | a string without lower-case letters is its own upper-case form |
| HttpMethods.StripUpperCaseCommute | src/main/java/com/intellectualsites/http/HttpMethod.java:87 | deleting whitespace and upper-casing commute |
| HttpMethods.Normalize | src/main/java/com/intellectualsites/http/HttpMethod.java:87 | the lookup key contains no whitespace and no lower-case letter, and is no longer than the input |
| HttpMethods.NormalizeName | src/main/java/com/intellectualsites/http/HttpMethod.java:84-87 | every constant's name is already its own lookup key |
| HttpMethods.TableOf | src/main/java/com/intellectualsites/http/HttpMethod.java:83-84 | each `put` of the loop adds at most one key, so the table never has more entries than constants put (which keys, and to what, is `TableOfContents`) |
| HttpMethods.TableOfPut | src/main/java/com/intellectualsites/http/HttpMethod.java:83-84 | one more pass of the loop adds the next constant under its name to the table built so far |
| HttpMethods.TableOfContents | src/main/java/com/intellectualsites/http/HttpMethod.java:82-85 | after putting each constant of a list under its name, the keys are exactly those names and each maps to its own constant |
| HttpMethods.CanonicalTable | src/main/java/com/intellectualsites/http/HttpMethod.java:81-85 | the table built from `values()` has every constant's name as a key, and each key maps to the constant of that name |
| HttpMethods.CanonicalTableExact | src/main/java/com/intellectualsites/http/HttpMethod.java:81-85 | the built table maps each of the six names to its own constant and holds no other key |
| HttpMethods.Resolve | src/main/java/com/intellectualsites/http/HttpMethod.java:87-88 | `Optional.ofNullable(METHOD_CACHE.get(fixed))`, rendered by the helper `Lookup` on the built table. Soundness: a found constant's name equals the normalised input; the result is empty exactly when no constant has that name |
| HttpMethods.FindByNameFinds | src/main/java/com/intellectualsites/http/HttpMethod.java:83-84 | a linear search of the constants finds one carrying the key exactly when one exists |
| HttpMethods.ResolveIsLinearSearch | src/main/java/com/intellectualsites/http/HttpMethod.java:83-88 | the table lookup agrees with a linear search of `values()` on the normalised input |
| HttpMethods.ResolveName | src/main/java/com/intellectualsites/http/HttpMethod.java:84-88 | round trip: every constant is found by its own name |
| HttpMethods.ResolveIgnoresInsertedWhitespace | src/main/java/com/intellectualsites/http/HttpMethod.java:87 | inserting or removing a whitespace character at any position does not change the result |
| HttpMethods.ResolveIgnoresWhitespace | src/main/java/com/intellectualsites/http/HttpMethod.java:87 | an input resolves as its whitespace-free form does |
| HttpMethods.ResolveCaseInsensitive | src/main/java/com/intellectualsites/http/HttpMethod.java:87 | two inputs that agree up to the case of ASCII letters resolve alike |
| HttpMethods.ResolveUpperCase | src/main/java/com/intellectualsites/http/HttpMethod.java:87 | upper-casing the input first does not change the result |
| HttpMethods.ResolveLowerCaseName | src/main/java/com/intellectualsites/http/HttpMethod.java:87 | a constant's name in lower case ("get") finds that constant |
| HttpMethods.ResolveUnknown | src/main/java/com/intellectualsites/http/HttpMethod.java:88 | an input whose key is none of the six names gives an empty result, not a failure |
| HttpMethods.Registry.constructor | src/main/java/com/intellectualsites/http/HttpMethod.java:68 | the static table starts out null |
| HttpMethods.Registry.BuildCache | src/main/java/com/intellectualsites/http/HttpMethod.java:81-86 | an empty map is stored in the static field and then filled in place by the `put` loop, leaving exactly the canonical table; each run counts as one build |
| HttpMethods.Registry.GetByName | src/main/java/com/intellectualsites/http/HttpMethod.java:80-89 | the table is built exactly when the field is null: a ghost build count rises by one on the first call and stays at one afterwards. The field then holds exactly the canonical table, unchanged by later calls. The answer is `Resolve(name)`, whether the cache was null or already built |
| HttpMethods.LookupTwice | src/main/java/com/intellectualsites/http/HttpMethod.java:80-89 | two lookups of one name agree with `Resolve(name)`, and leave the table built, having built it once in all |

## Left out

- ToUpperAscii: models `toUpperCase(Locale.ENGLISH)` for ASCII letters only. Java also upper-cases other letters, and some of them turn into ASCII capitals, such as U+017F (long s) to `S` and U+FB05 (a ligature) to `ST`. So `"poſt"` resolves to POST in Java but to nothing in the model. Reproducing this needs the Unicode case tables.
- UpperCase: maps one character to one character. Java's upper-casing can lengthen a string, for example U+00DF to `SS`. This follows from the restriction above.
- Strings are sequences of Unicode scalar values. Java strings are UTF-16 code units, and the model does not treat surrogate pairs separately.
- StripWhitespace: the regular expression `\s` is modelled as a filter over its six characters. The Java regex engine itself is not modelled.
- Registry.GetByName: covers single-threaded calls only. The null check and the filling of the static table are unsynchronised. `BuildCache` follows the source's order: it publishes an empty map first and then fills it in place. So a concurrent caller could find the field non-null while the table is only partly filled, and get an empty result for a valid name such as "GET". Two callers could also both build the table. Neither interleaving is modelled.
- `HashMap` is a Dafny `map`. Its hashing, resizing and iteration order are not modelled.
- Registry: one object stands for the enum's static state. Nothing outside `GetByName` writes the field, because it is private.
