# SwiftTweaks type-erased tweak identity, in Dafny

SwiftTweaks lets an app declare adjustable parameters ("tweaks") of several
value types. `AnyTweak` erases a tweak's value type so that tweaks of
different types can be kept in one collection. It forwards the wrapped
tweak's collection, group and tweak names, edit style, view-data type and
default data. It derives a string identifier by joining the three names with
`TweakIdentifierSeparator`. It uses that identifier for equality, for
hashing and as the key under which overrides are persisted. It also presents
itself as a one-element tweak cluster.

The model has three modules:

- `Wrappers` (`wrappers.dfy`) holds `Option`. It stands for Swift optionals
  and for a parse that can fail.
- `TweakIdentifiers` (`identifier.dfy`) holds the identifier string.
  - `Join` builds `collection SEP group SEP name` for any separator.
  - `Split` reads such a string back into its three names.
  - The lemmas say when the identifier determines the names.
- `AnyTweaks` (`any_tweak.dfy`) holds the `TweakType` protocol and `AnyTweak`.
  - `TweakType` is a datatype with two conformers: a concrete `Tweak<T>`
    (`Concrete`) and an `AnyTweak` (`Erased`). Each protocol requirement
    dispatches on which one it has.
  - The protocol's `tweak` property is `Inner()`. A concrete tweak returns
    itself; an `AnyTweak` returns the tweak it stores.
  - `AnyTweak(tweak:)` is the function `Wrap`.
  - Swift's `==` is `AnyTweak.Equals`. It compares the identifiers as
    sequences of Unicode scalars (see "## Left out").
  - The forwarded properties are `CollectionName`, `GroupName`, `TweakName`,
    `EditStyle`, `ViewDataType` (`tweakViewDataType`) and `DefaultData`
    (`tweakDefaultData`). `tweakIdentifier` is `TweakIdentifier`, `isColor`
    is `IsColor`, `persistenceIdentifier` is `PersistenceIdentifier` and
    `tweakCluster` is `TweakCluster`.
  - Swift's `Hasher` is modelled as the sequence of values combined into it.
    The final hash is some function of that sequence.

Some declarations that `SwiftTweaks/AnyTweak.swift` uses live outside this
model, so the model keeps them abstract:

- `TweakIdentifierSeparator` is a constant string that is only known to be
  non-empty.
- `TweakDefaultData` is an abstract type.
- `TweakViewDataType` has a `UIColor` case. Its other cases are kept
  abstract as `Other(tag)`, since only `UIColor` is ever compared against.
- `Tweak<T>` is a record of the six fields the protocol asks for. Its `tweak`
  property is assumed, in `TweakType.Inner`, to return the tweak itself.

Identifier collisions. The source joins the names without escaping anything.
Nothing in `SwiftTweaks/AnyTweak.swift` stops a name from containing the
separator. So every lemma that concludes "same identifier implies same names"
takes that condition as an explicit `requires`. The condition that suffices
for any separator is that no name contains a *character* of the separator
(`TweakIdentifiers.WellFormed`). For a one-character separator this is the
same as the separator not occurring in the name (`SingleCharSeparator`). For
a longer separator, leaving the separator string out of the names is not
enough. `SubstringFreedomIsNotEnough` exhibits two different triples that
collide under the separator `"aa"`.

## Model

| member | source | states |
|---|---|---|
| `AnyTweaks.Wrap` | SwiftTweaks/AnyTweak.swift:13-24 | An `AnyTweak` reports the same collection, group and tweak names, edit style, view-data type, default data and identifier as the tweak it was built from. |
| `AnyTweaks.TweakType.Inner` | SwiftTweaks/AnyTweak.swift:13-29 | The `tweak` property reports the same names, edit style, view-data type and default data as the tweak it belongs to, and sits on the same concrete tweak. It removes one level of wrapping unless there is none. |
| `TweakIdentifiers.Join` | SwiftTweaks/AnyTweak.swift:42-44 | The identifier is, position by position, the collection name, the separator, the group name, the separator and the tweak name, in that order and nothing else. |
| `AnyTweaks.TweakType.TweakIdentifier` | SwiftTweaks/AnyTweak.swift:42-44 | When no name holds a separator character, the three names can be read back from a tweak's identifier. |
| `AnyTweaks.TweakType.IsColor` | SwiftTweaks/AnyTweak.swift:46-48 | `isColor` looks at the wrapped tweak, and it holds exactly when this tweak's own view-data type is `UIColor`. |
| `AnyTweaks.AnyTweak.Equals` | SwiftTweaks/AnyTweak.swift:57-59 | Two `AnyTweak`s with the same three names are always equal, with no condition on the names. |
| `AnyTweaks.AnyTweak.PersistenceIdentifier` | SwiftTweaks/AnyTweak.swift:63-65 | The persistence key matches another tweak's identifier exactly when the two tweaks are equal. |
| `AnyTweaks.FieldsComeFromBase` | SwiftTweaks/AnyTweak.swift:15-20 | Through any number of wrappers, every forwarded field equals that field of the concrete tweak beneath. |
| `AnyTweaks.WrapIdempotent` | SwiftTweaks/AnyTweak.swift:22-24 | Wrapping an `AnyTweak` again stores the same inner tweak as wrapping once, so the result is identical to the first wrapper and equal to it. |
| `AnyTweaks.WrapUnnests` | SwiftTweaks/AnyTweak.swift:22-24 | The constructor removes one level of wrapping. Wrapping a concrete tweak, or an `AnyTweak` that holds one, stores a concrete tweak, so wrappers never nest. |
| `TweakIdentifiers.SplitJoin` | SwiftTweaks/AnyTweak.swift:42-44 | The identifier is collection, separator, group, separator, name, in that order. If the separator is non-empty and no name has a separator character, reading the identifier back gives the three names. |
| `TweakIdentifiers.Split` | SwiftTweaks/AnyTweak.swift:42-44 | Any string that reads back as a triple is exactly the join of that triple, and the triple's names are free of separator characters. |
| `TweakIdentifiers.IdentifierInjective` | SwiftTweaks/AnyTweak.swift:43 | Suppose the separator is non-empty and no name has a separator character. Then two identifiers are equal exactly when their (collection, group, name) triples are equal. |
| `TweakIdentifiers.SingleCharSeparator` | SwiftTweaks/AnyTweak.swift:43 | For a one-character separator, a name that does not contain the separator is exactly a name free of separator characters. |
| `TweakIdentifiers.IdentifierInjectiveSingleChar` | SwiftTweaks/AnyTweak.swift:43 | With a one-character separator that occurs in none of the names, equal identifiers come from equal triples, and the converse holds too. |
| `TweakIdentifiers.SubstringFreedomIsNotEnough` | SwiftTweaks/AnyTweak.swift:43 | With the two-character separator "aa", ("a","b","c") and ("","ab","c") contain no "aa", yet they join to the same identifier. |
| `AnyTweaks.EqualsIsEquivalence` | SwiftTweaks/AnyTweak.swift:57-59 | `==` on type-erased tweaks is reflexive, symmetric and transitive. |
| `AnyTweaks.EqualsIgnoresPayload` | SwiftTweaks/AnyTweak.swift:57-59 | Two wrapped tweaks with the same three names are equal, whatever their default data, edit style and view-data type. |
| `AnyTweaks.EqualsIffSameNames` | SwiftTweaks/AnyTweak.swift:57-59 | When no name has a separator character, two `AnyTweak`s are equal exactly when their collection, group and tweak names are the same, names being compared scalar by scalar. |
| `AnyTweaks.AnyTweak.HashInto` | SwiftTweaks/AnyTweak.swift:51-55 | Hashing keeps everything combined before it and feeds exactly one more value into the hasher: the identifier, that is, the three names joined by the separator. |
| `AnyTweaks.HashConsistentWithEquals` | SwiftTweaks/AnyTweak.swift:51-59 | Equal `AnyTweak`s leave any hasher in the same state, so their hash values agree. |
| `AnyTweaks.PersistenceIdentifierRoundTrip` | SwiftTweaks/AnyTweak.swift:63-65 | The persistence key is the tweak identifier. When no name has a separator character, the key reads back to the tweak's three names. |
| `AnyTweaks.IsColorIffUIColor` | SwiftTweaks/AnyTweak.swift:46-48 | `isColor` holds exactly when the tweak's view-data type is `UIColor`. That is also the view-data type of the concrete tweak beneath all wrappers. |
| `AnyTweaks.AnyTweak.TweakCluster` | SwiftTweaks/AnyTweak.swift:68-70 | An `AnyTweak` as a cluster has exactly one element, and that element is the `AnyTweak` itself. |
| `AnyTweaks.SingleClustersFlatten` | SwiftTweaks/AnyTweak.swift:67-70 | Take a list of tweaks and view each as its own cluster; each cluster is the one-element list of its tweak. Flatten the clusters, and the result is the original list in its original order. |

## Left out

- The tweak store is not part of this model: override lookup, clamping on write, reset, duplicate-identity detection and enumeration. Its source is outside `SwiftTweaks/AnyTweak.swift`.
- `Tweak<T>` is kept abstract as its six protocol fields. Its generic value, its bounds and its step size are not modelled. That its `tweak` returns itself is assumed in `TweakType.Inner`, not derived, because `Tweak<T>` is not part of this model.
- `TweakIdentifierSeparator` is not given its actual value. The model only uses the fact that it is non-empty.
- `TweakDefaultData` is not given its actual contents. It stays an abstract type.
- AnyTweaks.AnyTweak.HashInto: Swift's `Hasher` mixes values into a seeded, per-process hash. The model stops at the sequence of values combined, so it shows that equal tweaks hash alike but says nothing about how far apart the hashes of unequal tweaks land.
- The UI code that reads `AnyTweak` is not modelled: the color table cell and its `as? Tweak<UIColor>` downcast, and the color preview drawing. It is view code over floating-point colors.
- AnyTweaks.AnyTweak.Equals: names are sequences of Unicode scalars compared scalar by scalar. Swift compares and hashes `String` by canonical equivalence, so two names that differ only in normalization ("café" as one scalar, or as "e" plus a combining accent) make equal tweaks in Swift but unequal ones here. Every result about `Equals` and hashing holds for scalar-identical names only.
- AnyTweaks.EqualsIffSameNames: "same names" means scalar-identical names, and "separator character" means a Unicode scalar, not a Swift `Character` (a grapheme cluster). Under Swift's canonical equivalence, equal tweaks need only have canonically equivalent names.
- AnyTweaks.SingleClustersFlatten: `Flatten` stands in for the way the tweak store seeds itself from clusters. That code is not part of this model, so the lemma states only what a single tweak as a cluster of one gives to any flattening seeding.
- `NumericEditStyle` is modelled only as a value that `AnyTweak` forwards. Nothing in this core branches on it.
