/** The pieces of JavaScript semantics the core relies on: truthiness of an
    optional string, the `<` comparison of strings, and `Array.prototype.find`
    used to look an entry up by its id. */
module Js {
  import opened Wrappers

  /** A `?string` is truthy exactly when it is present and not the empty string.
      This is the definition; the ensures restates it as the two falsy values,
      `undefined` and `""`. */
  predicate Truthy(s: Option<string>)
    ensures Truthy(s) <==> s != None && s != Some("")
  {
    s.Some? && s.value != ""
  }

  // ---------------------------------------------------------------------------
  // String comparison
  // ---------------------------------------------------------------------------

  /** The UTF-16 code units of one character: itself below U+10000, a
      surrogate pair above. */
  function Utf16(c: char): (r: seq<int>)
    ensures 1 <= |r| <= 2
    ensures forall u :: u in r ==> 0 <= u < 0x1_0000
    ensures |r| == 1 <==> c as int < 0x1_0000
    ensures |r| == 1 ==> r[0] == c as int
    ensures |r| == 2 ==> 0xD800 <= r[0] < 0xDC00 <= r[1] < 0xE000
    ensures |r| == 2 ==> 0x1_0000 + (r[0] - 0xD800) * 0x400 + (r[1] - 0xDC00) == c as int
  {
    var cp := c as int;
    if cp < 0x1_0000 then [cp]
    else [0xD800 + (cp - 0x1_0000) / 0x400, 0xDC00 + (cp - 0x1_0000) % 0x400]
  }

  /** Different characters have different code units. */
  lemma Utf16Injective(c: char, d: char)
    requires Utf16(c) == Utf16(d)
    ensures c == d
  {
    assert c as int == d as int;
  }

  /** A JavaScript string is the sequence of UTF-16 code units of its characters. */
  function CodeUnits(s: string): (r: seq<int>)
    ensures |s| <= |r| <= 2 * |s|
  {
    if s == [] then [] else Utf16(s[0]) + CodeUnits(s[1..])
  }

  /** The code units of a concatenation are those of its parts, concatenated. */
  lemma {:induction false} CodeUnitsAppend(a: string, b: string)
    ensures CodeUnits(a + b) == CodeUnits(a) + CodeUnits(b)
  {
    if a != [] {
      assert (a + b)[1..] == a[1..] + b;
      CodeUnitsAppend(a[1..], b);
    } else {
      assert a + b == b;
    }
  }

  /** A string without characters above U+FFFF is its own code units. */
  lemma {:induction false} CodeUnitsOfBmp(s: string)
    requires forall i :: 0 <= i < |s| ==> s[i] as int < 0x1_0000
    ensures |CodeUnits(s)| == |s|
    ensures forall i :: 0 <= i < |s| ==> CodeUnits(s)[i] == s[i] as int
  {
    if s != [] {
      CodeUnitsOfBmp(s[1..]);
    }
  }

  /** Lexicographic order of code-unit sequences, a proper prefix first. */
  predicate LessUnits(a: seq<int>, b: seq<int>) {
    if a == [] then b != []
    else if b == [] then false
    else if a[0] != b[0] then a[0] < b[0]
    else LessUnits(a[1..], b[1..])
  }

  /** A proper prefix of code units comes first. */
  lemma {:induction false} LessUnitsPrefix(a: seq<int>, rest: seq<int>)
    requires rest != []
    ensures LessUnits(a, a + rest)
  {
    if a != [] {
      assert (a + rest)[1..] == a[1..] + rest;
      LessUnitsPrefix(a[1..], rest);
    }
  }

  /** A string's code units start with those of each of its prefixes. */
  lemma PrefixUnitsFirst(a: string, b: string)
    ensures |a| < |b| && a == b[..|a|] ==> LessUnits(CodeUnits(a), CodeUnits(b))
  {
    if |a| < |b| && a == b[..|a|] {
      assert b == a + b[|a|..];
      CodeUnitsAppend(a, b[|a|..]);
      LessUnitsPrefix(CodeUnits(a), CodeUnits(b[|a|..]));
    }
  }

  /** JavaScript's `a < b` on strings: lexicographic order of their UTF-16
      code units (not of their code points). A proper prefix comes first. */
  predicate Less(a: string, b: string)
    ensures |a| < |b| && a == b[..|a|] ==> Less(a, b)
  {
    PrefixUnitsFirst(a, b);
    LessUnits(CodeUnits(a), CodeUnits(b))
  }

  lemma {:induction false} LessUnitsIrreflexive(a: seq<int>)
    ensures !LessUnits(a, a)
  {
    if a != [] {
      LessUnitsIrreflexive(a[1..]);
    }
  }

  lemma {:induction false} LessUnitsTransitive(a: seq<int>, b: seq<int>, c: seq<int>)
    requires LessUnits(a, b) && LessUnits(b, c)
    ensures LessUnits(a, c)
  {
    if a != [] && b != [] && c != [] && a[0] == b[0] && b[0] == c[0] {
      LessUnitsTransitive(a[1..], b[1..], c[1..]);
    }
  }

  lemma {:induction false} LessUnitsTrichotomous(a: seq<int>, b: seq<int>)
    ensures LessUnits(a, b) || a == b || LessUnits(b, a)
  {
    if a != [] && b != [] && a[0] == b[0] {
      LessUnitsTrichotomous(a[1..], b[1..]);
      if a[1..] == b[1..] {
        assert a == [a[0]] + a[1..] && b == [b[0]] + b[1..];
      }
    }
  }

  /** No string is below itself. */
  lemma LessIrreflexive(a: string)
    ensures !Less(a, a)
  {
    LessUnitsIrreflexive(CodeUnits(a));
  }

  /** `<` on strings is transitive. */
  lemma LessTransitive(a: string, b: string, c: string)
    requires Less(a, b) && Less(b, c)
    ensures Less(a, c)
  {
    LessUnitsTransitive(CodeUnits(a), CodeUnits(b), CodeUnits(c));
  }

  /** "Not greater than" is transitive: the order sortBy relies on. */
  lemma NotLessTransitive(a: string, b: string, c: string)
    requires !Less(b, a) && !Less(c, b)
    ensures !Less(c, a)
  {
    var ua, ub, uc := CodeUnits(a), CodeUnits(b), CodeUnits(c);
    LessUnitsTrichotomous(ua, ub);
    LessUnitsTrichotomous(ub, uc);
    if LessUnits(uc, ua) {
      if LessUnits(ua, ub) {
        LessUnitsTransitive(uc, ua, ub);
      } else if LessUnits(ub, uc) {
        LessUnitsTransitive(ub, uc, ua);
      }
    }
  }

  /** `<` on strings is asymmetric. */
  lemma LessAsymmetric(a: string, b: string)
    requires Less(a, b)
    ensures !Less(b, a)
  {
    if Less(b, a) {
      LessTransitive(a, b, a);
      LessIrreflexive(a);
    }
  }

  /** Code-unit order is not code-point order: a character above U+FFFF is
      stored as surrogates (U+D800..U+DFFF), so it sorts before U+FF00. */
  lemma SurrogatesBeforeHighBmp()
    ensures Less("\U{1F600}", "\U{FF00}") && !Less("\U{FF00}", "\U{1F600}")
    ensures "\U{FF00}"[0] < "\U{1F600}"[0]
  {
    assert CodeUnits("\U{1F600}") == [0xD83D, 0xDE00];
    assert CodeUnits("\U{FF00}") == [0xFF00];
  }

  // ---------------------------------------------------------------------------
  // Looking entries up by id
  // ---------------------------------------------------------------------------

  /** The ids of a catalog, in catalog order. */
  function Ids<T>(s: seq<T>, key: T -> string): (r: seq<string>)
    ensures |r| == |s| && forall i :: 0 <= i < |s| ==> r[i] == key(s[i])
  {
    seq(|s|, i requires 0 <= i < |s| => key(s[i]))
  }

  /** No two entries of the catalog share an id. */
  ghost predicate DistinctIds<T>(s: seq<T>, key: T -> string) {
    forall i, j :: 0 <= i < j < |s| ==> key(s[i]) != key(s[j])
  }

  /** The position of the first entry whose id is `id`, if any. */
  function FindIndex<T>(s: seq<T>, key: T -> string, id: string): (r: Option<nat>)
    ensures r.None? <==> forall i :: 0 <= i < |s| ==> key(s[i]) != id
    ensures r.Some? ==> r.value < |s| && key(s[r.value]) == id
    ensures r.Some? ==> forall j :: 0 <= j < r.value ==> key(s[j]) != id
  {
    if s == [] then None
    else if key(s[0]) == id then Some(0)
    else match FindIndex(s[1..], key, id)
      case None => None
      case Some(i) => Some(i + 1)
  }

  /** `s.find(e => e.id === id)`: the first entry with that id, or `None`
      (JavaScript's `undefined`) when there is none. */
  function Find<T>(s: seq<T>, key: T -> string, id: string): (r: Option<T>)
    ensures r.None? <==> id !in Ids(s, key)
    ensures r.Some? ==> r.value in s && key(r.value) == id
  {
    match FindIndex(s, key, id)
    case None => None
    case Some(i) => Some(s[i])
  }

  /** An entry preceded by no entry with its id is the one found. */
  lemma FindFirst<T>(s: seq<T>, key: T -> string, i: nat)
    requires i < |s| && forall j :: 0 <= j < i ==> key(s[j]) != key(s[i])
    ensures Find(s, key, key(s[i])) == Some(s[i])
  {
  }

  /** In a catalog with distinct ids, an id resolves to the one entry carrying it. */
  lemma FindInDistinct<T>(s: seq<T>, key: T -> string, id: string)
    requires DistinctIds(s, key)
    ensures forall i :: 0 <= i < |s| && key(s[i]) == id ==> Find(s, key, id) == Some(s[i])
  {
  }
}
