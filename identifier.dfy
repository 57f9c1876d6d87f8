/**
 * The derived tweak identifier: the collection, group and tweak names joined
 * by a separator string. This module works for any separator; the tweak model
 * instantiates it with the library's `TweakIdentifierSeparator`.
 *
 * The join is only unambiguous when the names cannot be confused with the
 * separator. `Split` is the inverse of `Join` on such names, and from the
 * round trip follows that the identifier determines the name triple.
 */
module TweakIdentifiers {
  import opened Wrappers

  /** The (collection, group, name) triple that a tweak is identified by. */
  datatype TweakIdentity = TweakIdentity(collectionName: string, groupName: string, tweakName: string)

  /** `s` holds no character that occurs in the separator `sep`. */
  predicate FreeOf(sep: string, s: string) {
    forall i :: 0 <= i < |s| ==> s[i] !in sep
  }

  /** None of the three names holds a separator character. */
  predicate WellFormed(sep: string, id: TweakIdentity) {
    FreeOf(sep, id.collectionName) && FreeOf(sep, id.groupName) && FreeOf(sep, id.tweakName)
  }

  /** `sep` occurs in `s` as a substring starting at index `i`. */
  predicate OccursAt(sep: string, s: string, i: int) {
    0 <= i && i + |sep| <= |s| && s[i..i + |sep|] == sep
  }

  /** `sep` occurs somewhere in `s` as a substring. */
  predicate Occurs(sep: string, s: string) {
    exists i :: 0 <= i <= |s| && OccursAt(sep, s, i)
  }

  /** The identifier string: `collection SEP group SEP name`, in that order. */
  function Join(sep: string, id: TweakIdentity): (r: string)
    ensures var c, g, n := |id.collectionName|, |id.groupName|, |id.tweakName|;
      && |r| == c + |sep| + g + |sep| + n
      && r[..c] == id.collectionName
      && r[c..c + |sep|] == sep
      && r[c + |sep|..c + |sep| + g] == id.groupName
      && r[c + |sep| + g..c + |sep| + g + |sep|] == sep
      && r[c + |sep| + g + |sep|..] == id.tweakName
  {
    id.collectionName + sep + id.groupName + sep + id.tweakName
  }

  /** Length of the longest prefix of `s` that holds no separator character. */
  function FieldLength(sep: string, s: string): (k: nat)
    ensures k <= |s|
    ensures FreeOf(sep, s[..k])
    ensures k == |s| || s[k] in sep
  {
    if s == [] || s[0] in sep then 0
    else
      var k' := FieldLength(sep, s[1..]);
      assert s[..1 + k'] == [s[0]] + s[1..][..k'];
      1 + k'
  }

  /**
   * Reads one field off the front of `s`: the field runs up to the first
   * separator character and must be followed by the whole separator, which
   * is dropped from the remainder.
   */
  function SplitField(sep: string, s: string): (r: Option<(string, string)>)
    ensures r.Some? ==> FreeOf(sep, r.value.0) && s == r.value.0 + (sep + r.value.1)
  {
    var k := FieldLength(sep, s);
    var rest := s[k..];
    if !(sep <= rest) then None
    else
      var tail := rest[|sep|..];
      assert rest == sep + tail;
      assert s == s[..k] + rest;
      Some((s[..k], tail))
  }

  /**
   * Reads an identifier back into its three names: the collection and group
   * names are read as fields, and the rest is the tweak name.
   */
  function Split(sep: string, s: string): (r: Option<TweakIdentity>)
    ensures r.Some? ==> WellFormed(sep, r.value) && Join(sep, r.value) == s
  {
    match SplitField(sep, s)
    case None => None
    case Some((collection, rest)) =>
      match SplitField(sep, rest)
      case None => None
      case Some((group, name)) =>
        if !FreeOf(sep, name) then None
        else
          JoinAssociates(sep, collection, group, name);
          Some(TweakIdentity(collection, group, name))
  }

  /** The identifier is the collection name, a separator, and the rest. */
  lemma JoinAssociates(sep: string, c: string, g: string, n: string)
    ensures Join(sep, TweakIdentity(c, g, n)) == c + (sep + (g + (sep + n)))
  {
    assert c + sep + g + sep + n == c + (sep + (g + (sep + n)));
  }

  /** A name free of separator characters, followed by a separator, is read as one field. */
  lemma {:induction false} FieldLengthOfName(sep: string, name: string, rest: string)
    requires FreeOf(sep, name)
    requires rest == [] || rest[0] in sep
    ensures FieldLength(sep, name + rest) == |name|
  {
    if name != [] {
      assert (name + rest)[1..] == name[1..] + rest;
      FieldLengthOfName(sep, name[1..], rest);
    }
  }

  /** A field free of separator characters, followed by the separator, is read off whole. */
  lemma SplitFieldOfName(sep: string, name: string, rest: string)
    requires |sep| > 0
    requires FreeOf(sep, name)
    ensures SplitField(sep, name + (sep + rest)) == Some((name, rest))
  {
    var s := name + (sep + rest);
    FieldLengthOfName(sep, name, sep + rest);
    assert s[..|name|] == name;
    assert s[|name|..] == sep + rest;
    assert (sep + rest)[|sep|..] == rest;
  }

  /** Splitting a joined identifier gives back the names it was joined from. */
  lemma SplitJoin(sep: string, id: TweakIdentity)
    requires |sep| > 0
    requires WellFormed(sep, id)
    ensures Split(sep, Join(sep, id)) == Some(id)
  {
    var c, g, n := id.collectionName, id.groupName, id.tweakName;
    JoinAssociates(sep, c, g, n);
    SplitFieldOfName(sep, c, g + (sep + n));
    SplitFieldOfName(sep, g, n);
  }

  /**
   * With a non-empty separator and names free of its characters, two
   * identifiers are equal exactly when their name triples are.
   */
  lemma IdentifierInjective(sep: string, x: TweakIdentity, y: TweakIdentity)
    requires |sep| > 0
    requires WellFormed(sep, x) && WellFormed(sep, y)
    ensures Join(sep, x) == Join(sep, y) <==> x == y
  {
    if Join(sep, x) == Join(sep, y) {
      SplitJoin(sep, x);
      SplitJoin(sep, y);
    }
  }

  /** For a one-character separator, "does not contain the separator" is "free of its characters". */
  lemma SingleCharSeparator(sep: string, s: string)
    requires |sep| == 1
    ensures !Occurs(sep, s) <==> FreeOf(sep, s)
  {
    if !Occurs(sep, s) {
      forall i | 0 <= i < |s| ensures s[i] !in sep {
        assert !OccursAt(sep, s, i);
        assert s[i..i + 1] == [s[i]];
      }
    } else {
      var i :| 0 <= i <= |s| && OccursAt(sep, s, i);
      assert i < |s| && s[i..i + 1] == sep;
      assert s[i] == sep[0];
    }
  }

  /** With a one-character separator absent from every name, the identifier determines the names. */
  lemma IdentifierInjectiveSingleChar(sep: string, x: TweakIdentity, y: TweakIdentity)
    requires |sep| == 1
    requires !Occurs(sep, x.collectionName) && !Occurs(sep, x.groupName) && !Occurs(sep, x.tweakName)
    requires !Occurs(sep, y.collectionName) && !Occurs(sep, y.groupName) && !Occurs(sep, y.tweakName)
    ensures Join(sep, x) == Join(sep, y) <==> x == y
  {
    SingleCharSeparator(sep, x.collectionName);
    SingleCharSeparator(sep, x.groupName);
    SingleCharSeparator(sep, x.tweakName);
    SingleCharSeparator(sep, y.collectionName);
    SingleCharSeparator(sep, y.groupName);
    SingleCharSeparator(sep, y.tweakName);
    IdentifierInjective(sep, x, y);
  }

  /**
   * For a longer separator, keeping the separator string out of the names is
   * not enough: with separator "aa", the triples ("a", "b", "c") and
   * ("", "ab", "c") contain no "aa" yet join to the same identifier "aaabaac".
   */
  lemma SubstringFreedomIsNotEnough()
    ensures var x, y := TweakIdentity("a", "b", "c"), TweakIdentity("", "ab", "c");
            && !Occurs("aa", "a") && !Occurs("aa", "b") && !Occurs("aa", "c")
            && !Occurs("aa", "") && !Occurs("aa", "ab")
            && x != y && Join("aa", x) == Join("aa", y)
  {
    assert !OccursAt("aa", "ab", 0) by { assert "ab"[0..2] == "ab"; }
    assert forall i :: OccursAt("aa", "ab", i) ==> i == 0;
  }
}
