# CourseBook Person entity and messages, modelled in Dafny

CourseBook keeps contacts with the courses they take. This project models two
parts of it:

- the **Person** entity (`Person.java`): an immutable record of name, phone,
  email, address, a set of tags, a set of courses, an optional birthday and a
  favourite flag, with its constructor, the permissive duplicate check
  `isSamePerson`, the strict `equals` and a `hashCode` that agrees with it;
- the **Messages** container (`Messages.java`): its fixed message texts, the
  error message for prefixes given more than once, and `format`, the display
  string of a person.

Files:

- `wrappers.dfy` (module `Wrappers`): `Option` for a Java reference that may be
  null, `Result` for a call that may throw.
- `fields.dfy` (module `Fields`): the field value types and `Prefix`, each an
  opaque value carrying its string form `shown`, with one `…String` function
  for the `toString()` of each type that is displayed (all but `Birthday`).
- `enumerations.dfy` (module `Enumerations`): the iteration order of a hash set
  (`Enumerates`: any sequence that lists every element exactly once),
  `Concat` (appending string forms in turn), `Join` (`String.join`), `Split`
  (the inverse of `Join`) and their lemmas.
- `person.dfy` (module `PersonEntity`): the `Person` datatype, `NewPerson`,
  `IsSamePerson`, `Equals`, `HashCode` and the lemmas relating them.
- `messages.dfy` (module `Messages`): the constants, `DuplicatePrefixesMessage`,
  the `Format` method with its `AppendEach` loop, the specification function
  `Layout` and the lemmas about it.

Modelling choices:

- Java `null` is `None` for `isSamePerson`'s argument; `equals(Object)` takes an
  `Object` that is `Null`, a `PersonObject` or a `NonPerson` value of any other
  class.
- The reference-identity short-cuts `other == this` are kept as branches, with
  value equality standing for reference identity. The result is unchanged:
  a person always shares its own name, and always equals itself field by field.
- A hash set's iteration order is unspecified. `Format` picks each next element
  with `:|`, so any order is possible, and promises that its result is the
  layout for some order of each set. `DuplicatePrefixesMessage` takes the iteration order of the collected
  set as the parameter `joinOrder`, required to list each distinct prefix string
  exactly once. Every property is proved for every such order.
- `hashCode` is `hash(Fields())` for a hash function `hash` of the eight-field
  tuple passed as a parameter; the lemmas hold for every such function.

## Model

| member | source | states |
|---|---|---|
| `PersonEntity.NewPerson` | src/main/java/seedu/coursebook/model/person/Person.java:35-46 | construction fails exactly when name, phone, email, address, tags or courses is null; the birthday may be absent; a constructed person holds exactly the supplied values and sets |
| `PersonEntity.ReconstructFromGetters` | src/main/java/seedu/coursebook/model/person/Person.java:35-86 | constructing from a person's own getters gives back that person: getters return exactly what the constructor stored |
| `PersonEntity.Person.IsSamePerson` | src/main/java/seedu/coursebook/model/person/Person.java:92-101 | false against null; against a person, true exactly when the name, the email or the phone is shared |
| `PersonEntity.SamePersonReflexive` | src/main/java/seedu/coursebook/model/person/Person.java:93-95 | every person is the same person as itself |
| `PersonEntity.SamePersonSymmetric` | src/main/java/seedu/coursebook/model/person/Person.java:97-100 | `p.isSamePerson(q)` and `q.isSamePerson(p)` agree |
| `PersonEntity.OneSharedFieldSuffices` | src/main/java/seedu/coursebook/model/person/Person.java:97-100 | one shared name, email or phone makes two persons the same person whatever else differs |
| `PersonEntity.NoSharedFieldMeansDifferent` | src/main/java/seedu/coursebook/model/person/Person.java:97-100 | persons sharing none of name, email and phone are not the same person |
| `PersonEntity.SamePersonNotTransitive` | src/main/java/seedu/coursebook/model/person/Person.java:97-100 | there are A, B, C with A matching B by phone and B matching C by email while A and C share nothing |
| `PersonEntity.Person.Equals` | src/main/java/seedu/coursebook/model/person/Person.java:108-127 | true exactly when the argument is a Person equal to this one in every field; so false for null and for values of other classes |
| `PersonEntity.NullSafeEquals` | src/main/java/seedu/coursebook/model/person/Person.java:125 | two possibly-absent birthdays are equal exactly when both are absent or both present and equal |
| `PersonEntity.EqualsIffAllFieldsEqual` | src/main/java/seedu/coursebook/model/person/Person.java:119-126 | `equals` holds exactly when name, phone, email, address, tags, courses, birthday and favourite flag all agree, so one differing field makes it false |
| `PersonEntity.EqualsIsEquivalence` | src/main/java/seedu/coursebook/model/person/Person.java:108-127 | `equals` is reflexive, symmetric and transitive |
| `PersonEntity.EqualsRejectsNullAndNonPerson` | src/main/java/seedu/coursebook/model/person/Person.java:113-116 | `equals(null)` and `equals` of a non-Person value are false |
| `PersonEntity.EqualsImpliesSamePerson` | src/main/java/seedu/coursebook/model/person/Person.java:92-127 | strictly equal persons are the same person |
| `PersonEntity.DataFieldsDistinguishOnlyEquals` | src/main/java/seedu/coursebook/model/person/Person.java:97-126 | persons agreeing on name, phone and email but differing in address, tags, courses, birthday or favourite flag are the same person and not equal |
| `PersonEntity.SamePersonDoesNotImplyEquals` | src/main/java/seedu/coursebook/model/person/Person.java:97-126 | for every person there is one that is the same person yet not equal to it |
| `PersonEntity.Person.HashCode` | src/main/java/seedu/coursebook/model/person/Person.java:129-133 | the hash code is the given hash of the tuple (name, phone, email, address, tags, courses, birthday, isFavourite) |
| `PersonEntity.HashConsistentWithEquals` | src/main/java/seedu/coursebook/model/person/Person.java:108-133 | equal persons have equal hash codes, for every hash of the field tuple |
| `PersonEntity.HashReadsEveryField` | src/main/java/seedu/coursebook/model/person/Person.java:132 | persons whose hash codes agree under every hash of the field tuple are equal: the hash depends on all eight fields |
| `Messages.DuplicatePrefixesMessage` | src/main/java/seedu/coursebook/logic/Messages.java:36-43 | requires at least one prefix; the message starts with "Multiple values specified for the following single-valued field(s): " |
| `Messages.DistinctFields` | src/main/java/seedu/coursebook/logic/Messages.java:39-40 | the collected set holds the string form of every prefix passed, and nothing that is not the string form of one of them |
| `Messages.DistinctFieldsCount` | src/main/java/seedu/coursebook/logic/Messages.java:39-40 | a non-empty prefix list has at least one and at most as many distinct prefix strings as prefixes |
| `Messages.RepeatedPrefixCollapses` | src/main/java/seedu/coursebook/logic/Messages.java:39-40 | repeating a prefix does not change the set of names the message lists |
| `Messages.DuplicatePrefixesMessageLength` | src/main/java/seedu/coursebook/logic/Messages.java:37-42 | the join order has one entry per distinct prefix string, and the message's length is the fixed text's, plus the distinct prefix strings' together, plus one per separator, of which there are one fewer than distinct strings |
| `Messages.DuplicatePrefixesMessageListsEachOnce` | src/main/java/seedu/coursebook/logic/Messages.java:39-42 | when no prefix string holds a space, the text after the fixed part splits at spaces into the distinct prefix strings, each exactly once |
| `Enumerations.Join` | src/main/java/seedu/coursebook/logic/Messages.java:42 | `String.join`: no parts give the empty string; otherwise the result starts with the first part and ends with the last |
| `Enumerations.JoinLength` | src/main/java/seedu/coursebook/logic/Messages.java:42 | the length of a non-empty join is the sum of the parts' lengths plus one separator length per neighbouring pair |
| `Enumerations.SplitJoin` | src/main/java/seedu/coursebook/logic/Messages.java:42 | splitting a non-empty join at a one-character separator that no part contains gives back the parts, in order |
| `Messages.AppendEach` | src/main/java/seedu/coursebook/logic/Messages.java:58-61 | `forEach(builder::append)` appends the string form of every set element exactly once, in some order, without separator |
| `Messages.Format` | src/main/java/seedu/coursebook/logic/Messages.java:48-63 | the result is the layout of the person for some pair of orders listing every course and every tag exactly once; the person, a value, is not changed |
| `Messages.Layout` | src/main/java/seedu/coursebook/logic/Messages.java:48-63 | the display string for given iteration orders of the course and tag sets: its length is that of the name, phone, email and address with their markers and the Courses marker, plus the course string forms, the Tags marker and the tag string forms |
| `Messages.LayoutSegments` | src/main/java/seedu/coursebook/logic/Messages.java:50-61 | the display string starts with the name; the Phone, Email, Address, Courses and Tags markers follow in that order, each followed by its field, the courses concatenated and then the tags |
| `Messages.LayoutLength` | src/main/java/seedu/coursebook/logic/Messages.java:49-62 | the length is the field lengths plus the course and tag string lengths plus 48 for the markers |
| `Messages.LayoutLengthIndependentOfOrder` | src/main/java/seedu/coursebook/logic/Messages.java:58-61 | the length does not depend on the order the course and tag sets are iterated in |
| `Messages.LayoutListsEachCourseOnce` | src/main/java/seedu/coursebook/logic/Messages.java:57-58 | the course iteration lists every course of the person exactly once and nothing else; right after the Courses marker the display string holds their concatenation, the string form of the i-th course sitting after those of the courses before it |
| `Messages.LayoutListsEachTagOnce` | src/main/java/seedu/coursebook/logic/Messages.java:60-61 | the tag iteration lists every tag of the person exactly once and nothing else; right after the Tags marker the display string holds their concatenation up to its end, the string form of the i-th tag sitting after those of the tags before it |
| `Messages.LayoutWithoutLabels` | src/main/java/seedu/coursebook/logic/Messages.java:57-61 | with no courses and no tags the display string ends in "; Courses: ; Tags: " |
| `Messages.LayoutExample` | src/main/java/seedu/coursebook/logic/Messages.java:48-63 | Alice, with one course whose string form is CS2103 and one tag whose string form is friends, is displayed, whatever the iteration order, as "Alice", "; Phone: ", "85355255", "; Email: ", "alice@example.com", "; Address: ", "123 Main St", "; Courses: ", "CS2103", "; Tags: ", "friends" one after another |

## Left out

- Field types (`Name`, `Phone`, `Email`, `Address`, `Birthday`, `Tag`, `Course`, `Prefix`): their classes are not part of this model. Their validation, any name capitalisation or trimming, and their exact `toString` are not modelled; each value is its string form, so two values are equal exactly when their string forms are. The name-case and trailing-space tests of `isSamePerson` depend on `Name.equals` and are not covered.
- `toString` of a person (`Person.java:136-147`): it relies on `ToStringBuilder`, which is not part of this model.
- Unmodifiable views (`Person.java:72-86`): the getters return the set value itself; the `UnsupportedOperationException` on an attempt to change it is Java runtime behaviour. Since sets are values, neither the defensive copy in the constructor nor a getter can alias state that a caller could change.
- `PersonEntity.Person.HashCode`: the concrete `Objects.hash` arithmetic and its 32-bit wrap-around are not modelled; the hash is any function of the eight-field tuple.
- `Messages.DuplicatePrefixesMessage`: requires at least one prefix, as the Java `assert` at `Messages.java:37` demands of callers. A call with no prefix is not modelled: it throws an `AssertionError` when assertions are enabled and otherwise returns the fixed text alone.
- `MESSAGE_SINGLE_COURSE_ONLY`, `MESSAGE_SINGLE_BDAY_ONLY`, `MESSAGE_SINGLE_ORDER_ONLY` (`Messages.java:25-30`): they embed usage texts of command classes that are not part of this model.
- Reference identity: persons are values, so the short-cut `other == this` is modelled by value equality (it yields the same result).
