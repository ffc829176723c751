/**
  The Person entity of CourseBook: an immutable contact record with identity
  fields (name, phone, email), data fields (address, optional birthday,
  favourite flag) and two sets of labels (tags and courses), together with its
  two comparisons: the permissive duplicate check IsSamePerson and the strict
  field-by-field Equals, and a hash that agrees with Equals.
*/
module PersonEntity {
  import opened Wrappers
  import opened Fields

  /** Thrown by the constructor when a required argument is null. */
  datatype ConstructionError = NullArgument

  /** The eight fields of a person, in the order they are hashed. */
  type FieldTuple = (Name, Phone, Email, Address, set<Tag>, set<Course>, Option<Birthday>, bool)

  /** A hash of the eight fields; its concrete arithmetic is not part of the model. */
  type FieldHash = FieldTuple -> int

  /**
    A Java value that `equals` may be handed: null, a Person, or a value of any
    other class.
  */
  datatype Object = Null | PersonObject(person: Person) | NonPerson

  datatype Person = Person(
    name: Name,
    phone: Phone,
    email: Email,
    address: Address,
    tags: set<Tag>,
    courses: set<Course>,
    birthday: Option<Birthday>,
    isFavourite: bool)
  {
    /**
      The weak, duplicate-detection notion of sameness: a non-null person that
      shares the name, the email or the phone number.
    */
    function IsSamePerson(other: Option<Person>): (r: bool)
      ensures other == None ==> !r
      ensures other.Some? ==>
        (r <==> other.value.name == name || other.value.email == email || other.value.phone == phone)
    {
      if other == Some(this) then true
      else
        other != None
        && (other.value.name == name
            || other.value.email == email
            || other.value.phone == phone)
    }

    /**
      The strong notion of equality: a Person (not null, not another class)
      whose every field is equal, the birthday compared null-safely.
    */
    function Equals(other: Object): (r: bool)
      ensures r <==> other == PersonObject(this)
    {
      if other == PersonObject(this) then true
      else match other
        case PersonObject(o) =>
          && name == o.name
          && phone == o.phone
          && email == o.email
          && address == o.address
          && tags == o.tags
          && courses == o.courses
          && NullSafeEquals(birthday, o.birthday)
          && isFavourite == o.isFavourite
        case _ => false
    }

    /** The eight fields that both Equals and HashCode look at. */
    function Fields(): (r: FieldTuple) {
      (name, phone, email, address, tags, courses, birthday, isFavourite)
    }

    /** hashCode(): the hash of the eight fields, whatever hash function is used. */
    function HashCode(hash: FieldHash): (r: int)
      ensures r == hash((name, phone, email, address, tags, courses, birthday, isFavourite))
    {
      hash(Fields())
    }
  }

  /** Objects.equals on two possibly-null birthdays. */
  function NullSafeEquals(a: Option<Birthday>, b: Option<Birthday>): (r: bool)
    ensures r <==> a == b
  {
    match (a, b)
    case (None, None) => true
    case (Some(x), Some(y)) => x == y
    case _ => false
  }

  /**
    The constructor: every argument except the birthday must be non-null. The
    person holds the tag and course sets as values, so no caller can change them.
  */
  function NewPerson(
    name: Option<Name>, phone: Option<Phone>, email: Option<Email>, address: Option<Address>,
    tags: Option<set<Tag>>, courses: Option<set<Course>>, birthday: Option<Birthday>,
    isFavourite: bool): (r: Result<Person, ConstructionError>)
    ensures r.Failure? <==>
      name == None || phone == None || email == None || address == None || tags == None || courses == None
    ensures r.Success? ==>
      && r.value.name == name.value
      && r.value.phone == phone.value
      && r.value.email == email.value
      && r.value.address == address.value
      && r.value.tags == tags.value
      && r.value.courses == courses.value
      && r.value.birthday == birthday
      && r.value.isFavourite == isFavourite
  {
    if name == None || phone == None || email == None || address == None || tags == None || courses == None then
      Failure(NullArgument)
    else
      Success(Person(name.value, phone.value, email.value, address.value,
                     tags.value, courses.value, birthday, isFavourite))
  }

  /** Every person is what the constructor builds from its own getters. */
  lemma ReconstructFromGetters(p: Person)
    ensures NewPerson(Some(p.name), Some(p.phone), Some(p.email), Some(p.address),
                      Some(p.tags), Some(p.courses), p.birthday, p.isFavourite) == Success(p)
  {
  }

  // ---------------------------------------------------------------------------
  // IsSamePerson

  /** Every person is the same person as itself. */
  lemma SamePersonReflexive(p: Person)
    ensures p.IsSamePerson(Some(p))
  {
  }

  /** The duplicate check does not depend on which of the two persons asks. */
  lemma SamePersonSymmetric(p: Person, q: Person)
    ensures p.IsSamePerson(Some(q)) <==> q.IsSamePerson(Some(p))
  {
  }

  /** One shared identity field is enough, whatever the other fields hold. */
  lemma OneSharedFieldSuffices(p: Person, q: Person)
    requires p.name == q.name || p.email == q.email || p.phone == q.phone
    ensures p.IsSamePerson(Some(q))
  {
  }

  /** Persons that share none of name, email and phone are never the same person. */
  lemma NoSharedFieldMeansDifferent(p: Person, q: Person)
    requires p.name != q.name && p.email != q.email && p.phone != q.phone
    ensures !p.IsSamePerson(Some(q))
  {
  }

  /** A shares its phone number with B, B its email address with C, and A and C share nothing. */
  ghost predicate PhoneThenEmail(a: Person, b: Person, c: Person) {
    && a.phone == b.phone
    && b.email == c.email
    && a.name != c.name && a.phone != c.phone && a.email != c.email
  }

  /**
    The duplicate check is not transitive: A shares a phone number with B, B
    shares an email address with C, yet A and C share nothing.
  */
  lemma SamePersonNotTransitive()
    ensures exists a: Person, b: Person, c: Person ::
      && PhoneThenEmail(a, b, c)
      && a.IsSamePerson(Some(b)) && b.IsSamePerson(Some(c)) && !a.IsSamePerson(Some(c))
  {
    var a := Person(Name("Alex"), Phone("98765432"), Email("alex@example.com"),
                    Address("1 Road"), {}, {}, None, false);
    var b := Person(Name("Bob"), Phone("98765432"), Email("bob@example.com"),
                    Address("2 Road"), {}, {}, None, false);
    var c := Person(Name("Carla"), Phone("9123456"), Email("bob@example.com"),
                    Address("3 Road"), {}, {}, None, false);
    assert PhoneThenEmail(a, b, c);
    assert a.IsSamePerson(Some(b)) && b.IsSamePerson(Some(c)) && !a.IsSamePerson(Some(c));
  }

  // ---------------------------------------------------------------------------
  // Equals

  /** Equals holds exactly when all eight fields agree (absent birthday equals absent birthday). */
  lemma EqualsIffAllFieldsEqual(p: Person, q: Person)
    ensures p.Equals(PersonObject(q)) <==>
      && p.name == q.name
      && p.phone == q.phone
      && p.email == q.email
      && p.address == q.address
      && p.tags == q.tags
      && p.courses == q.courses
      && p.birthday == q.birthday
      && p.isFavourite == q.isFavourite
  {
  }

  /** Equals is reflexive, symmetric and transitive: unlike IsSamePerson, an equivalence. */
  lemma EqualsIsEquivalence(p: Person, q: Person, r: Person)
    ensures p.Equals(PersonObject(p))
    ensures p.Equals(PersonObject(q)) <==> q.Equals(PersonObject(p))
    ensures p.Equals(PersonObject(q)) && q.Equals(PersonObject(r)) ==> p.Equals(PersonObject(r))
  {
  }

  /** Neither null nor a value of another class is equal to a person. */
  lemma EqualsRejectsNullAndNonPerson(p: Person)
    ensures !p.Equals(Null)
    ensures !p.Equals(NonPerson)
  {
  }

  /** Strict equality implies the weak duplicate check. */
  lemma EqualsImpliesSamePerson(p: Person, q: Person)
    requires p.Equals(PersonObject(q))
    ensures p.IsSamePerson(Some(q))
  {
  }

  /**
    The converse fails: changing only the address, the tags, the courses, the
    birthday or the favourite flag keeps the person the same person but makes it
    unequal.
  */
  lemma DataFieldsDistinguishOnlyEquals(p: Person, q: Person)
    requires p.name == q.name && p.phone == q.phone && p.email == q.email
    requires p.address != q.address || p.tags != q.tags || p.courses != q.courses
             || p.birthday != q.birthday || p.isFavourite != q.isFavourite
    ensures p.IsSamePerson(Some(q))
    ensures !p.Equals(PersonObject(q))
  {
  }

  /** For every person there is another that is the same person but not equal to it. */
  lemma SamePersonDoesNotImplyEquals(p: Person)
    ensures exists q: Person :: p.IsSamePerson(Some(q)) && !p.Equals(PersonObject(q))
  {
    var q := p.(isFavourite := !p.isFavourite);
    assert p.IsSamePerson(Some(q)) && !p.Equals(PersonObject(q));
  }

  // ---------------------------------------------------------------------------
  // HashCode

  /** Equal persons have equal hash codes, for every hash of the field tuple. */
  lemma HashConsistentWithEquals(p: Person, q: Person, hash: FieldHash)
    requires p.Equals(PersonObject(q))
    ensures p.HashCode(hash) == q.HashCode(hash)
  {
  }

  /**
    The hash reads every one of the eight fields: persons whose hash codes agree
    under every hash of the field tuple are equal.
  */
  lemma HashReadsEveryField(p: Person, q: Person)
    requires forall hash: FieldHash :: p.HashCode(hash) == q.HashCode(hash)
    ensures p.Equals(PersonObject(q))
  {
    var probe: FieldHash := t => if t == p.Fields() then 1 else 0;
    assert p.HashCode(probe) == 1;
    assert q.HashCode(probe) == 1;
  }
}
