/**
 * The type-erased tweak of SwiftTweaks: `AnyTweak` wraps any value
 * conforming to the `TweakType` protocol so that tweaks of different value
 * types can be kept in one collection, and identifies it by the string
 * `collection SEP group SEP name`.
 *
 * The protocol has two kinds of conformers here: a concrete `Tweak<T>`,
 * whose `tweak` property is the tweak itself, and `AnyTweak`, whose `tweak`
 * property is the tweak it stores. Protocol requirements dispatch on that
 * choice.
 */
module AnyTweaks {
  import opened Wrappers
  import opened TweakIdentifiers

  type NonEmptyString = s: string | |s| > 0 witness "|"

  /**
   * The separator the library joins identifier parts with. It is declared
   * outside this model; all that is used of it is that it is not empty.
   */
  const TweakIdentifierSeparator: NonEmptyString

  /** The boxed default value of a tweak, declared outside this model. */
  type TweakDefaultData(==, !new)

  /**
   * The kind of editor a tweak is shown with, declared outside this model:
   * the `UIColor` case, which `isColor` compares against, and the other cases
   * kept abstract.
   */
  datatype TweakViewDataType = UIColor | Other(tag: nat)

  datatype NumericEditStyle = Stepper | Slider

  /** A concrete `Tweak<T>`, as it answers the `TweakType` requirements. */
  datatype Tweak = Tweak(
    collectionName: string,
    groupName: string,
    tweakName: string,
    tweakViewDataType: TweakViewDataType,
    tweakDefaultData: TweakDefaultData,
    editStyle: Option<NumericEditStyle>)

  /** A value conforming to `TweakType`. */
  datatype TweakType = Concrete(concrete: Tweak) | Erased(any: AnyTweak)
  {
    /**
     * The `tweak` requirement: a concrete tweak is its own tweak (assumed, as
     * `Tweak<T>` is declared outside this model); an `AnyTweak` gives the one
     * it stores. Either way the result reports the same fields, sits on the
     * same concrete tweak, and has one wrapper fewer unless it had none.
     */
    function Inner(): (r: TweakType)
      ensures r.CollectionName() == CollectionName()
      ensures r.GroupName() == GroupName()
      ensures r.TweakName() == TweakName()
      ensures r.EditStyle() == EditStyle()
      ensures r.ViewDataType() == ViewDataType()
      ensures r.DefaultData() == DefaultData()
      ensures r.Base() == Base()
      ensures r.Nesting() == if Nesting() == 0 then 0 else Nesting() - 1
    {
      match this
      case Concrete(_) => this
      case Erased(a) => a.tweak
    }

    function CollectionName(): string {
      match this
      case Concrete(t) => t.collectionName
      case Erased(a) => a.CollectionName()
    }

    function GroupName(): string {
      match this
      case Concrete(t) => t.groupName
      case Erased(a) => a.GroupName()
    }

    function TweakName(): string {
      match this
      case Concrete(t) => t.tweakName
      case Erased(a) => a.TweakName()
    }

    function EditStyle(): Option<NumericEditStyle> {
      match this
      case Concrete(t) => t.editStyle
      case Erased(a) => a.EditStyle()
    }

    /** `tweakViewDataType` */
    function ViewDataType(): TweakViewDataType {
      match this
      case Concrete(t) => t.tweakViewDataType
      case Erased(a) => a.ViewDataType()
    }

    /** `tweakDefaultData` */
    function DefaultData(): TweakDefaultData {
      match this
      case Concrete(t) => t.tweakDefaultData
      case Erased(a) => a.DefaultData()
    }

    /** The name triple the identifier is built from. */
    function Identity(): TweakIdentity {
      TweakIdentity(CollectionName(), GroupName(), TweakName())
    }

    /**
     * `tweakIdentifier`: the three names joined by the separator. When no
     * name holds a separator character, the names can be read back from it.
     */
    function TweakIdentifier(): (r: string)
      ensures WellFormed(TweakIdentifierSeparator, Identity()) ==> Split(TweakIdentifierSeparator, r) == Some(Identity())
    {
      var id := Identity();
      if WellFormed(TweakIdentifierSeparator, id) then
        SplitJoin(TweakIdentifierSeparator, id);
        Join(TweakIdentifierSeparator, id)
      else
        Join(TweakIdentifierSeparator, id)
    }

    /**
     * `isColor`: whether the wrapped tweak is edited as a color, which is
     * whether this tweak reports the `UIColor` view-data type.
     */
    function IsColor(): (r: bool)
      ensures r <==> ViewDataType() == UIColor
    {
      Inner().ViewDataType() == UIColor
    }

    /** The concrete tweak at the bottom of any chain of wrappers. */
    function Base(): Tweak {
      match this
      case Concrete(t) => t
      case Erased(a) => a.tweak.Base()
    }

    /** How many `AnyTweak` wrappers stand above the concrete tweak. */
    function Nesting(): nat {
      match this
      case Concrete(_) => 0
      case Erased(a) => 1 + a.tweak.Nesting()
    }
  }

  /** The type-erased tweak: its fields are those of the tweak it stores. */
  datatype AnyTweak = AnyTweak(tweak: TweakType)
  {
    function CollectionName(): string { tweak.CollectionName() }
    function GroupName(): string { tweak.GroupName() }
    function TweakName(): string { tweak.TweakName() }
    function EditStyle(): Option<NumericEditStyle> { tweak.EditStyle() }
    function ViewDataType(): TweakViewDataType { tweak.ViewDataType() }
    function DefaultData(): TweakDefaultData { tweak.DefaultData() }

    /** The identifier of this `AnyTweak`, through the protocol extension. */
    function TweakIdentifier(): string {
      Erased(this).TweakIdentifier()
    }

    /**
     * `==`: two type-erased tweaks are equal when their identifiers are, so
     * tweaks with the same three names are always equal.
     */
    function Equals(other: AnyTweak): (r: bool)
      ensures Identity() == other.Identity() ==> r
    {
      TweakIdentifier() == other.TweakIdentifier()
    }

    /** The name triple of the stored tweak. */
    function Identity(): TweakIdentity {
      Erased(this).Identity()
    }

    /** `hash(into:)`: feeds the identifier, and nothing else, into the hasher. */
    function HashInto(hasher: Hasher): (r: Hasher)
      ensures |r.combined| == |hasher.combined| + 1
      ensures r.combined[..|hasher.combined|] == hasher.combined
      ensures r.combined[|hasher.combined|] == Join(TweakIdentifierSeparator, Identity())
    {
      hasher.Combine(TweakIdentifier())
    }

    /**
     * `persistenceIdentifier`: the key an override of this tweak is stored
     * under. It is the identifier, so it matches another tweak's identifier
     * exactly when the two tweaks are equal.
     */
    function PersistenceIdentifier(): (r: string)
      ensures forall other: AnyTweak :: other.TweakIdentifier() == r <==> Equals(other)
    {
      TweakIdentifier()
    }

    /** `tweakCluster`: a single tweak is a cluster of one. */
    function TweakCluster(): (r: seq<AnyTweak>)
      ensures |r| == 1 && forall t :: t in r <==> t == this
    {
      [this]
    }
  }

  /**
   * Swift's `Hasher`, as the sequence of values combined into it so far; the
   * final hash value is some function of that sequence.
   */
  datatype Hasher = Hasher(combined: seq<string>)
  {
    function Combine(value: string): Hasher {
      Hasher(combined + [value])
    }
  }

  /**
   * `AnyTweak(tweak:)`: stores the argument's own `tweak`, so wrapping an
   * `AnyTweak` again stores the tweak it already held. The result reports
   * every field of the argument.
   */
  function Wrap(t: TweakType): (r: AnyTweak)
    ensures r.CollectionName() == t.CollectionName()
    ensures r.GroupName() == t.GroupName()
    ensures r.TweakName() == t.TweakName()
    ensures r.EditStyle() == t.EditStyle()
    ensures r.ViewDataType() == t.ViewDataType()
    ensures r.DefaultData() == t.DefaultData()
    ensures r.TweakIdentifier() == t.TweakIdentifier()
  {
    AnyTweak(t.Inner())
  }

  /** Every field of a tweak, however often wrapped, is the field of the concrete tweak beneath. */
  lemma {:induction false} FieldsComeFromBase(t: TweakType)
    ensures t.CollectionName() == t.Base().collectionName
    ensures t.GroupName() == t.Base().groupName
    ensures t.TweakName() == t.Base().tweakName
    ensures t.EditStyle() == t.Base().editStyle
    ensures t.ViewDataType() == t.Base().tweakViewDataType
    ensures t.DefaultData() == t.Base().tweakDefaultData
  {
    match t
    case Concrete(_) =>
    case Erased(a) => FieldsComeFromBase(a.tweak);
  }

  /**
   * Wrapping is idempotent: wrapping an `AnyTweak` a second time stores the
   * same tweak as wrapping once, so the two are also equal.
   */
  lemma WrapIdempotent(t: TweakType)
    ensures Wrap(Erased(Wrap(t))) == Wrap(t)
    ensures Wrap(Erased(Wrap(t))).Equals(Wrap(t))
  {
  }

  /**
   * Wrapping removes one level of nesting, so wrapping a concrete tweak, or
   * an `AnyTweak` that holds one, stores a concrete tweak.
   */
  lemma WrapUnnests(t: TweakType)
    ensures Wrap(t).tweak.Nesting() == if t.Nesting() == 0 then 0 else t.Nesting() - 1
    ensures t.Nesting() <= 1 ==> Wrap(t).tweak.Concrete?
  {
  }

  /** Equality of type-erased tweaks is reflexive, symmetric and transitive. */
  lemma EqualsIsEquivalence(a: AnyTweak, b: AnyTweak, c: AnyTweak)
    ensures a.Equals(a)
    ensures a.Equals(b) <==> b.Equals(a)
    ensures a.Equals(b) && b.Equals(c) ==> a.Equals(c)
  {
  }

  /** Equality looks only at the names: default data, edit style and view-data type play no part. */
  lemma EqualsIgnoresPayload(x: Tweak, y: Tweak)
    requires x.collectionName == y.collectionName
    requires x.groupName == y.groupName
    requires x.tweakName == y.tweakName
    ensures Wrap(Concrete(x)).Equals(Wrap(Concrete(y)))
  {
  }

  /**
   * When no name holds a separator character, two type-erased tweaks are
   * equal exactly when they have the same collection, group and tweak names.
   */
  lemma EqualsIffSameNames(a: AnyTweak, b: AnyTweak)
    requires WellFormed(TweakIdentifierSeparator, a.Identity())
    requires WellFormed(TweakIdentifierSeparator, b.Identity())
    ensures a.Equals(b) <==> a.Identity() == b.Identity()
  {
    IdentifierInjective(TweakIdentifierSeparator, a.Identity(), b.Identity());
  }

  /** Equal type-erased tweaks feed the same value into any hasher, so they hash alike. */
  lemma HashConsistentWithEquals(a: AnyTweak, b: AnyTweak, hasher: Hasher)
    ensures a.Equals(b) ==> a.HashInto(hasher) == b.HashInto(hasher)
  {
  }

  /**
   * The persistence key is the identifier itself; when no name holds a
   * separator character, the key gives back the three names.
   */
  lemma PersistenceIdentifierRoundTrip(a: AnyTweak)
    requires WellFormed(TweakIdentifierSeparator, a.Identity())
    ensures a.PersistenceIdentifier() == a.TweakIdentifier()
    ensures Split(TweakIdentifierSeparator, a.PersistenceIdentifier()) == Some(a.Identity())
  {
    SplitJoin(TweakIdentifierSeparator, a.Identity());
  }

  /** `isColor` holds exactly when the concrete tweak beneath is edited as a `UIColor`. */
  lemma IsColorIffUIColor(t: TweakType)
    ensures t.IsColor() <==> t.ViewDataType() == UIColor
    ensures t.IsColor() <==> t.Base().tweakViewDataType == UIColor
  {
    FieldsComeFromBase(t);
    FieldsComeFromBase(t.Inner());
  }

  /** The clusters of a list of single tweaks, one each. */
  function SingleClusters(tweaks: seq<AnyTweak>): (r: seq<seq<AnyTweak>>)
    ensures |r| == |tweaks|
    ensures forall i :: 0 <= i < |r| ==> r[i] == [tweaks[i]]
  {
    if tweaks == [] then [] else [tweaks[0].TweakCluster()] + SingleClusters(tweaks[1..])
  }

  /** All tweaks of a list of clusters, in order. */
  function Flatten(clusters: seq<seq<AnyTweak>>): seq<AnyTweak> {
    if clusters == [] then [] else clusters[0] + Flatten(clusters[1..])
  }

  /** Seeding from single tweaks viewed as clusters yields exactly those tweaks, in order. */
  lemma {:induction false} SingleClustersFlatten(tweaks: seq<AnyTweak>)
    ensures Flatten(SingleClusters(tweaks)) == tweaks
  {
    if tweaks != [] {
      SingleClustersFlatten(tweaks[1..]);
      assert SingleClusters(tweaks)[1..] == SingleClusters(tweaks[1..]);
    }
  }
}
