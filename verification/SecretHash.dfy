/**
 The digest that detects rotated secrets: names sorted, every field length-prefixed, the text then hashed. Strings
 are byte strings, one char a byte; the hash function itself stays abstract.
 */
module SecretHash {
  import opened Text
  import opened SecretMerge

  function NamesOf(secrets: seq<Secret>): seq<string> {
    seq(|secrets|, i requires 0 <= i < |secrets| => secrets[i].name)
  }

  /** "<length>:<text>" */
  function Prefixed(s: string): string {
    Decimal(|s|) + [':'] + s
  }

  /** "<len>:<name>=<len>:<value>\n" */
  function Entry(name: string, value: string): string {
    Prefixed(name) + (['='] + (Prefixed(value) + ['\n']))
  }

  function Encode(names: seq<string>, byName: map<string, string>): string
    requires forall n :: n in names ==> n in byName
  {
    if names == [] then "" else Entry(names[0], byName[names[0]]) + Encode(names[1..], byName)
  }

  lemma {:induction false} NamesListed(secrets: seq<Secret>)
    ensures forall n :: n in ByName(secrets) <==> n in NamesOf(secrets)
  {
    if secrets != [] {
      var init := secrets[..|secrets| - 1];
      NamesListed(init);
      assert NamesOf(secrets) == NamesOf(init) + [secrets[|secrets| - 1].name];
    }
  }

  lemma SortedListed(secrets: seq<Secret>)
    ensures forall n :: n in Sort(NamesOf(secrets)) <==> n in ByName(secrets)
  {
    NamesListed(secrets);
    assert forall n :: n in Sort(NamesOf(secrets)) <==> n in multiset(Sort(NamesOf(secrets)));
    assert forall n :: n in NamesOf(secrets) <==> n in multiset(NamesOf(secrets));
  }

  /** The text that is hashed. */
  function Encoding(secrets: seq<Secret>): string {
    SortedListed(secrets);
    Encode(Sort(NamesOf(secrets)), ByName(secrets))
  }

  type Digest = string -> string

  function Hash(secrets: seq<Secret>, digest: Digest): string {
    if |secrets| == 0 then "" else digest(Encoding(secrets))
  }

  method Collect(secrets: seq<Secret>) returns (byName: map<string, string>, names: seq<string>)
    ensures byName == ByName(secrets) && names == NamesOf(secrets)
  {
    byName, names := map[], [];
    for i := 0 to |secrets|
      invariant byName == ByName(secrets[..i]) && names == NamesOf(secrets[..i])
    {
      assert secrets[..i + 1][..i] == secrets[..i];
      byName := byName[secrets[i].name := secrets[i].value];
      names := names + [secrets[i].name];
    }
    assert secrets[..|secrets|] == secrets;
  }

  /** The loop that feeds the hash. */
  method Feed(names: seq<string>, byName: map<string, string>) returns (text: string)
    requires forall n :: n in names ==> n in byName
    ensures text == Encode(names, byName)
  {
    text := "";
    for i := 0 to |names|
      invariant Encode(names, byName) == text + Encode(names[i..], byName)
    {
      assert names[i] in names && names[i..][0] == names[i] && names[i..][1..] == names[i + 1..];
      EncodeStep(names[i..], byName, text);
      text := text + Entry(names[i], byName[names[i]]);
    }
    assert names[|names|..] == [] && text + "" == text;
  }

  method HashStackSecrets(secrets: seq<Secret>, digest: Digest) returns (hash: string)
    ensures hash == Hash(secrets, digest)
  {
    if |secrets| == 0 {
      return "";
    }
    var byName, names := Collect(secrets);
    SortedListed(secrets);
    var text := Feed(Sort(names), byName);
    return digest(text);
  }

  lemma EncodeStep(names: seq<string>, byName: map<string, string>, text: string)
    requires names != [] && forall n :: n in names ==> n in byName
    ensures text + Encode(names, byName) == text + Entry(names[0], byName[names[0]]) + Encode(names[1..], byName)
  {
  }

  // ---------------------------------------------------------------------------------------------
  // Unique decoding
  // ---------------------------------------------------------------------------------------------

  lemma DecimalHasNoColon(n: nat)
    ensures ':' !in Decimal(n)
  {
    assert forall c :: c in Decimal(n) ==> IsDigit(c);
  }

  /** Where the length ends. */
  lemma PrefixedSplits(x: string, r: string)
    ensures Prefixed(x) + r == Decimal(|x|) + ([':'] + (x + r))
    ensures IndexOf(Prefixed(x) + r, ':') == |Decimal(|x|)|
  {
    var m := Decimal(|x|);
    DecimalHasNoColon(|x|);
    IndexOfAt(m, ':', x + r);
    Associate(m + [':'], x, r);
    Associate(m, [':'], x + r);
  }

  /** A length-prefixed text is cut off the front of anything in only one way. */
  lemma PrefixedDecodes(x: string, y: string, r: string, s: string)
    requires Prefixed(x) + r == Prefixed(y) + s
    ensures x == y && r == s
  {
    PrefixedSplits(x, r);
    PrefixedSplits(y, s);
    var m, n := Decimal(|x|), Decimal(|y|);
    SamePrefix(m, n, [':'] + (x + r), [':'] + (y + s));
    DecimalInjective(|x|, |y|);
    SamePrefix([':'], [':'], x + r, y + s);
    SamePrefix(x, y, r, s);
  }

  lemma SamePrefix(a: string, b: string, r: string, s: string)
    requires |a| == |b| && a + r == b + s
    ensures a == b && r == s
  {
    assert a == (a + r)[..|a|] && b == (b + s)[..|b|];
    assert r == (a + r)[|a|..] && s == (b + s)[|b|..];
  }

  lemma EntryDecodes(n1: string, v1: string, n2: string, v2: string, r: string, s: string)
    requires Entry(n1, v1) + r == Entry(n2, v2) + s
    ensures n1 == n2 && v1 == v2 && r == s
  {
    EntryRegroups(n1, v1, r);
    EntryRegroups(n2, v2, s);
    PrefixedDecodes(n1, n2, ['='] + (Prefixed(v1) + (['\n'] + r)), ['='] + (Prefixed(v2) + (['\n'] + s)));
    SamePrefix(['='], ['='], Prefixed(v1) + (['\n'] + r), Prefixed(v2) + (['\n'] + s));
    PrefixedDecodes(v1, v2, ['\n'] + r, ['\n'] + s);
    SamePrefix(['\n'], ['\n'], r, s);
  }

  lemma EntryRegroups(name: string, value: string, r: string)
    ensures Entry(name, value) + r == Prefixed(name) + (['='] + (Prefixed(value) + (['\n'] + r)))
  {
    Regroup(Prefixed(name), ['='], Prefixed(value), ['\n'], r);
  }

  lemma Regroup(a: string, b: string, c: string, d: string, e: string)
    ensures a + (b + (c + d)) + e == a + (b + (c + (d + e)))
  {
  }

  /** Equal encodings list the same names with the same values, in the same order. */
  lemma {:induction false} EncodeInjective(a: seq<string>, ma: map<string, string>, b: seq<string>,
                                            mb: map<string, string>)
    requires (forall n :: n in a ==> n in ma) && (forall n :: n in b ==> n in mb)
    requires Encode(a, ma) == Encode(b, mb)
    ensures a == b && forall n :: n in a ==> ma[n] == mb[n]
  {
    if a == [] || b == [] {
    } else {
      EntryDecodes(a[0], ma[a[0]], b[0], mb[b[0]], Encode(a[1..], ma), Encode(b[1..], mb));
      EncodeInjective(a[1..], ma, b[1..], mb);
      assert a == [a[0]] + a[1..] && b == [b[0]] + b[1..];
    }
  }

  // ---------------------------------------------------------------------------------------------
  // What the encoding, and the hash, determine
  // ---------------------------------------------------------------------------------------------

  /**
   Two lists of secrets have the same encoding exactly when they hold the same names equally often and the same
   final value for each: the order they arrive in never matters, and nothing else is forgotten.
   */
  lemma EncodingExactly(a: seq<Secret>, b: seq<Secret>)
    ensures Encoding(a) == Encoding(b)
            <==> multiset(NamesOf(a)) == multiset(NamesOf(b)) && ByName(a) == ByName(b)
  {
    var na, nb := Sort(NamesOf(a)), Sort(NamesOf(b));
    SortedListed(a);
    SortedListed(b);
    if Encoding(a) == Encoding(b) {
      EncodeInjective(na, ByName(a), nb, ByName(b));
      assert ByName(a).Keys == ByName(b).Keys;
    }
    if multiset(NamesOf(a)) == multiset(NamesOf(b)) && ByName(a) == ByName(b) {
      SortedUnique(na, nb);
    }
  }

  /** Names listed once each are the same with the same multiplicities as soon as they are the same. */
  lemma SameNamesSameMultiset(a: seq<Secret>, b: seq<Secret>)
    requires DistinctNames(a) && DistinctNames(b) && ByName(a).Keys == ByName(b).Keys
    ensures multiset(NamesOf(a)) == multiset(NamesOf(b))
  {
    NamesListed(a);
    NamesListed(b);
    DistinctMultiset(NamesOf(a));
    DistinctMultiset(NamesOf(b));
    assert Elements(NamesOf(a)) == Elements(NamesOf(b));
  }

  /** With one secret per name, as the store keeps them, the encoding is exactly as fine as the map. */
  lemma DistinctEncodingExactly(a: seq<Secret>, b: seq<Secret>)
    requires DistinctNames(a) && DistinctNames(b)
    ensures Encoding(a) == Encoding(b) <==> ByName(a) == ByName(b)
  {
    EncodingExactly(a, b);
    if ByName(a) == ByName(b) {
      SameNamesSameMultiset(a, b);
    }
  }

  /** No two texts share a digest, and no digest is empty (a hex SHA-256 never is). */
  ghost predicate CollisionFree(digest: Digest) {
    && (forall a, b :: digest(a) == digest(b) ==> a == b)
    && (forall a :: digest(a) != "")
  }

  /** The stored hash tells apart exactly the different secret maps, the empty one included. */
  lemma HashExactly(a: seq<Secret>, b: seq<Secret>, digest: Digest)
    requires CollisionFree(digest) && DistinctNames(a) && DistinctNames(b)
    ensures Hash(a, digest) == Hash(b, digest) <==> ByName(a) == ByName(b)
  {
    DistinctEncodingExactly(a, b);
    NamesListed(a);
    NamesListed(b);
    if |a| == 0 && |b| > 0 {
      assert b[0].name == NamesOf(b)[0];
      assert b[0].name in ByName(b);
    } else if |b| == 0 && |a| > 0 {
      assert a[0].name == NamesOf(a)[0];
      assert a[0].name in ByName(a);
    }
  }
}
