/**
  User-visible messages of CourseBook: the fixed message texts, the error message
  for prefixes given more than once, and the display format of a person.
*/
module Messages {
  import opened Wrappers
  import opened Fields
  import opened Enumerations
  import opened PersonEntity

  const MESSAGE_UNKNOWN_COMMAND := "Unknown command"
  const MESSAGE_INVALID_COMMAND_FORMAT := "Invalid command format! \n%1$s"
  const MESSAGE_INVALID_PERSON_DISPLAYED_INDEX := "The person index provided is invalid"
  const MESSAGE_PERSONS_LISTED_OVERVIEW := "%1$d persons listed!"
  const MESSAGE_NO_CONTACT_FOUND := "No such contact found"
  const MESSAGE_DUPLICATE_FIELDS := "Multiple values specified for the following single-valued field(s): "
  const MESSAGE_NAME_ALPHA_ONLY := "Names must contain only alphabets"

  // ---------------------------------------------------------------------------
  // The error message for duplicate prefixes

  /** The distinct string forms of the given prefixes: the set the stream collects into. */
  function DistinctFields(prefixes: seq<Prefix>): (r: set<string>)
    ensures forall i :: 0 <= i < |prefixes| ==> PrefixString(prefixes[i]) in r
    ensures forall x :: x in r ==> exists i :: 0 <= i < |prefixes| && PrefixString(prefixes[i]) == x
  {
    set p | p in prefixes :: PrefixString(p)
  }

  /**
    The message naming the prefixes that were given more than once. The caller
    must pass at least one prefix. The distinct prefix strings are joined with
    single spaces in `joinOrder`, the iteration order of the collected set.
  */
  function DuplicatePrefixesMessage(prefixes: seq<Prefix>, joinOrder: seq<string>): (r: string)
    requires |prefixes| > 0
    requires Enumerates(joinOrder, DistinctFields(prefixes))
    ensures |r| >= |MESSAGE_DUPLICATE_FIELDS| && r[..|MESSAGE_DUPLICATE_FIELDS|] == MESSAGE_DUPLICATE_FIELDS
  {
    MESSAGE_DUPLICATE_FIELDS + Join(" ", joinOrder)
  }

  /** At least one and at most as many distinct prefix strings as prefixes. */
  lemma {:induction false} DistinctFieldsCount(prefixes: seq<Prefix>)
    requires |prefixes| > 0
    ensures 1 <= |DistinctFields(prefixes)| <= |prefixes|
  {
    var last := prefixes[|prefixes| - 1];
    var init := prefixes[..|prefixes| - 1];
    assert DistinctFields(prefixes) == DistinctFields(init) + {PrefixString(last)} by {
      assert prefixes == init + [last];
    }
    if init != [] {
      DistinctFieldsCount(init);
    } else {
      assert DistinctFields(init) == {};
    }
  }

  /** Passing a prefix once more does not change the set of names the message lists. */
  lemma RepeatedPrefixCollapses(prefixes: seq<Prefix>, i: nat)
    requires i < |prefixes|
    ensures DistinctFields(prefixes + [prefixes[i]]) == DistinctFields(prefixes)
  {
  }

  /**
    The message is as long as the fixed text, plus the distinct prefix strings
    together, plus one character for each of the separators, which number one
    fewer than the distinct prefix strings.
  */
  lemma DuplicatePrefixesMessageLength(prefixes: seq<Prefix>, joinOrder: seq<string>)
    requires |prefixes| > 0
    requires Enumerates(joinOrder, DistinctFields(prefixes))
    ensures |joinOrder| == |DistinctFields(prefixes)|
    ensures |DuplicatePrefixesMessage(prefixes, joinOrder)|
         == |MESSAGE_DUPLICATE_FIELDS| + TotalLength(joinOrder, Verbatim) + |DistinctFields(prefixes)| - 1
  {
    EnumeratesExactlyOnce(joinOrder, DistinctFields(prefixes));
    DistinctFieldsCount(prefixes);
    JoinLength(" ", joinOrder);
  }

  /**
    When no prefix string holds a space, the text after the fixed part splits at
    its spaces into the distinct prefix strings, each exactly once.
  */
  lemma DuplicatePrefixesMessageListsEachOnce(prefixes: seq<Prefix>, joinOrder: seq<string>)
    requires |prefixes| > 0
    requires Enumerates(joinOrder, DistinctFields(prefixes))
    requires forall p :: p in prefixes ==> ' ' !in PrefixString(p)
    ensures var names := Split(DuplicatePrefixesMessage(prefixes, joinOrder)[|MESSAGE_DUPLICATE_FIELDS|..], ' ');
      && names == joinOrder
      && forall x :: multiset(names)[x] == (if x in DistinctFields(prefixes) then 1 else 0)
  {
    var fields := DistinctFields(prefixes);
    EnumeratesExactlyOnce(joinOrder, fields);
    DistinctFieldsCount(prefixes);
    forall i | 0 <= i < |joinOrder| ensures ' ' !in joinOrder[i] {
      assert joinOrder[i] in fields;
    }
    SplitJoin(joinOrder, ' ');
    var r := DuplicatePrefixesMessage(prefixes, joinOrder);
    assert r[|MESSAGE_DUPLICATE_FIELDS|..] == Join([' '], joinOrder);
  }

  // ---------------------------------------------------------------------------
  // The display format of a person

  const PHONE_MARKER := "; Phone: "
  const EMAIL_MARKER := "; Email: "
  const ADDRESS_MARKER := "; Address: "
  const COURSES_MARKER := "; Courses: "
  const TAGS_MARKER := "; Tags: "

  /**
    The start of the display string of `p`: its name, phone, email and address,
    each but the name after its marker, then the Courses marker.
  */
  function Head(p: Person): (r: string) {
    NameString(p.name)
    + PHONE_MARKER + PhoneString(p.phone)
    + EMAIL_MARKER + EmailString(p.email)
    + ADDRESS_MARKER + AddressString(p.address)
    + COURSES_MARKER
  }

  /**
    The display string of `p` when its course set is iterated in `courseOrder`
    and its tag set in `tagOrder`.
  */
  function Layout(p: Person, courseOrder: seq<Course>, tagOrder: seq<Tag>): (r: string)
    ensures |r| == |Head(p)| + TotalLength(courseOrder, CourseString) + |TAGS_MARKER| + TotalLength(tagOrder, TagString)
  {
    ConcatLength(courseOrder, CourseString);
    ConcatLength(tagOrder, TagString);
    Head(p) + Concat(courseOrder, CourseString) + TAGS_MARKER + Concat(tagOrder, TagString)
  }

  /**
    Iterable.forEach(builder::append) over a hash set: appends the string form of
    every element of `items` to `builder`, once each, in an order the set chooses.
  */
  method AppendEach<T>(builder: string, items: set<T>, show: T -> string) returns (s: string)
    ensures exists order :: Enumerates(order, items) && s == builder + Concat(order, show)
  {
    s := builder;
    ghost var order := [];
    var rest := items;
    while rest != {}
      invariant rest <= items
      invariant Enumerates(order, items - rest)
      invariant s == builder + Concat(order, show)
      decreases rest
    {
      var x :| x in rest;
      assert (order + [x])[..|order|] == order;
      assert items - (rest - {x}) == (items - rest) + {x};
      s := s + show(x);
      order := order + [x];
      rest := rest - {x};
    }
    assert items - rest == items;
  }

  /**
    format(person): appends the fields and markers, then every course and every
    tag in the iteration order of its set.
  */
  method Format(person: Person) returns (s: string)
    ensures exists courseOrder, tagOrder ::
      && Enumerates(courseOrder, person.courses)
      && Enumerates(tagOrder, person.tags)
      && s == Layout(person, courseOrder, tagOrder)
  {
    s := NameString(person.name);
    s := s + PHONE_MARKER;
    s := s + PhoneString(person.phone);
    s := s + EMAIL_MARKER;
    s := s + EmailString(person.email);
    s := s + ADDRESS_MARKER;
    s := s + AddressString(person.address);
    s := s + COURSES_MARKER;
    ghost var head := s;
    s := AppendEach(s, person.courses, CourseString);
    ghost var courseOrder :| Enumerates(courseOrder, person.courses) && s == head + Concat(courseOrder, CourseString);
    s := s + TAGS_MARKER;
    head := s;
    s := AppendEach(s, person.tags, TagString);
    ghost var tagOrder :| Enumerates(tagOrder, person.tags) && s == head + Concat(tagOrder, TagString);
    assert s == Layout(person, courseOrder, tagOrder);
  }

  // ---------------------------------------------------------------------------
  // Properties of the display format

  /**
    `s` begins with the name; the Phone, Email and Address markers follow, each
    followed by its field, and then the Courses marker.
  */
  ghost predicate HeadLaidOut(s: string, name: string, phone: string, email: string, address: string) {
    var phoneAt := |name|;
    var emailAt := phoneAt + |PHONE_MARKER| + |phone|;
    var addressAt := emailAt + |EMAIL_MARKER| + |email|;
    var coursesAt := addressAt + |ADDRESS_MARKER| + |address|;
    && coursesAt + |COURSES_MARKER| <= |s|
    && s[..phoneAt] == name
    && s[phoneAt..phoneAt + |PHONE_MARKER|] == PHONE_MARKER
    && s[phoneAt + |PHONE_MARKER|..emailAt] == phone
    && s[emailAt..emailAt + |EMAIL_MARKER|] == EMAIL_MARKER
    && s[emailAt + |EMAIL_MARKER|..addressAt] == email
    && s[addressAt..addressAt + |ADDRESS_MARKER|] == ADDRESS_MARKER
    && s[addressAt + |ADDRESS_MARKER|..coursesAt] == address
    && s[coursesAt..coursesAt + |COURSES_MARKER|] == COURSES_MARKER
  }

  /**
    The display string is the name, then the Phone, Email, Address, Courses and
    Tags markers in that order, each followed by its field: the phone, the email,
    the address, the courses concatenated without separator, and the tags
    concatenated likewise.
  */
  lemma LayoutSegments(p: Person, courseOrder: seq<Course>, tagOrder: seq<Tag>)
    ensures
      var s := Layout(p, courseOrder, tagOrder);
      var name, phone, email, address := NameString(p.name), PhoneString(p.phone), EmailString(p.email), AddressString(p.address);
      var courses, tags := Concat(courseOrder, CourseString), Concat(tagOrder, TagString);
      var phoneAt := |name|;
      var emailAt := phoneAt + |PHONE_MARKER| + |phone|;
      var addressAt := emailAt + |EMAIL_MARKER| + |email|;
      var coursesAt := addressAt + |ADDRESS_MARKER| + |address|;
      var tagsAt := coursesAt + |COURSES_MARKER| + |courses|;
      && phoneAt < emailAt < addressAt < coursesAt < tagsAt
      && |s| == tagsAt + |TAGS_MARKER| + |tags|
      && HeadLaidOut(s, name, phone, email, address)
      && s[coursesAt + |COURSES_MARKER|..tagsAt] == courses
      && s[tagsAt..tagsAt + |TAGS_MARKER|] == TAGS_MARKER
      && s[tagsAt + |TAGS_MARKER|..] == tags
  {
    FieldSegments(p, courseOrder, tagOrder);
    LabelSegments(p, courseOrder, tagOrder);
  }

  /** The fields and markers of the display string up to the course segment. */
  lemma FieldSegments(p: Person, courseOrder: seq<Course>, tagOrder: seq<Tag>)
    ensures
      var s := Layout(p, courseOrder, tagOrder);
      var name, phone, email, address := NameString(p.name), PhoneString(p.phone), EmailString(p.email), AddressString(p.address);
      var phoneAt := |name|;
      var emailAt := phoneAt + |PHONE_MARKER| + |phone|;
      var addressAt := emailAt + |EMAIL_MARKER| + |email|;
      var coursesAt := addressAt + |ADDRESS_MARKER| + |address|;
      && CoursesStart(p) == coursesAt + |COURSES_MARKER|
      && HeadLaidOut(s, name, phone, email, address)
  {
    HeadSegments(p);
    LabelSegments(p, courseOrder, tagOrder);
    LiftSegments(Layout(p, courseOrder, tagOrder), Head(p),
      NameString(p.name), PhoneString(p.phone), EmailString(p.email), AddressString(p.address));
  }

  /** Where `s` begins with a head laid out from these fields, so does `s` hold them. */
  lemma LiftSegments(s: string, h: string, name: string, phone: string, email: string, address: string)
    requires
      var phoneAt := |name|;
      var emailAt := phoneAt + |PHONE_MARKER| + |phone|;
      var addressAt := emailAt + |EMAIL_MARKER| + |email|;
      var coursesAt := addressAt + |ADDRESS_MARKER| + |address|;
      && |h| == coursesAt + |COURSES_MARKER| <= |s|
      && s[..|h|] == h
      && HeadLaidOut(h, name, phone, email, address)
    ensures HeadLaidOut(s, name, phone, email, address)
  {
    var phoneAt := |name|;
    var emailAt := phoneAt + |PHONE_MARKER| + |phone|;
    var addressAt := emailAt + |EMAIL_MARKER| + |email|;
    var coursesAt := addressAt + |ADDRESS_MARKER| + |address|;
    TakeOfPrefix(s, h, phoneAt);
    SliceOfPrefix(s, h, phoneAt, phoneAt + |PHONE_MARKER|);
    SliceOfPrefix(s, h, phoneAt + |PHONE_MARKER|, emailAt);
    SliceOfPrefix(s, h, emailAt, emailAt + |EMAIL_MARKER|);
    SliceOfPrefix(s, h, emailAt + |EMAIL_MARKER|, addressAt);
    SliceOfPrefix(s, h, addressAt, addressAt + |ADDRESS_MARKER|);
    SliceOfPrefix(s, h, addressAt + |ADDRESS_MARKER|, coursesAt);
    SliceOfPrefix(s, h, coursesAt, coursesAt + |COURSES_MARKER|);
  }

  /** Where the fields and markers sit within the head itself. */
  lemma HeadSegments(p: Person)
    ensures
      var h := Head(p);
      var name, phone, email, address := NameString(p.name), PhoneString(p.phone), EmailString(p.email), AddressString(p.address);
      var phoneAt := |name|;
      var emailAt := phoneAt + |PHONE_MARKER| + |phone|;
      var addressAt := emailAt + |EMAIL_MARKER| + |email|;
      var coursesAt := addressAt + |ADDRESS_MARKER| + |address|;
      && |h| == coursesAt + |COURSES_MARKER|
      && HeadLaidOut(h, name, phone, email, address)
  {
    var h := Head(p);
    // The prefixes of h that end at a boundary between two appended pieces.
    var x1 := NameString(p.name);
    var x2 := x1 + PHONE_MARKER;
    var x3 := x2 + PhoneString(p.phone);
    var x4 := x3 + EMAIL_MARKER;
    var x5 := x4 + EmailString(p.email);
    var x6 := x5 + ADDRESS_MARKER;
    var x7 := x6 + AddressString(p.address);
    assert h == x7 + COURSES_MARKER;
    assert h[..|h|] == h;
    PieceAt(h, x7, COURSES_MARKER);
    PieceAt(h, x6, AddressString(p.address));
    PieceAt(h, x5, ADDRESS_MARKER);
    PieceAt(h, x4, EmailString(p.email));
    PieceAt(h, x3, EMAIL_MARKER);
    PieceAt(h, x2, PhoneString(p.phone));
    PieceAt(h, x1, PHONE_MARKER);
  }

  /** Where `s` begins with `h`, a slice within `h` is the same slice of `s`. */
  lemma SliceOfPrefix(s: string, h: string, i: nat, j: nat)
    requires |h| <= |s| && s[..|h|] == h && i <= j <= |h|
    ensures s[i..j] == h[i..j]
  {
    SliceOfSlice(s, 0, |h|, i, j - i);
  }

  /** Where `s` begins with `h`, so does it begin with every prefix of `h`. */
  lemma TakeOfPrefix(s: string, h: string, j: nat)
    requires |h| <= |s| && s[..|h|] == h && j <= |h|
    ensures s[..j] == h[..j]
  {
    SliceOfSlice(s, 0, |h|, 0, j);
  }

  /** Where `s` begins with `x + piece`, it begins with `x`, and `piece` follows. */
  lemma PieceAt(s: string, x: string, piece: string)
    requires |x| + |piece| <= |s|
    requires s[..|x| + |piece|] == x + piece
    ensures s[..|x|] == x
    ensures s[|x|..|x| + |piece|] == piece
    ensures |x| + |piece| == |s| ==> s[|x|..] == piece
  {
  }

  /**
    The length of the display string: the lengths of the four fields, of the
    string forms of every course and every tag, and of the five markers.
  */
  lemma LayoutLength(p: Person, courseOrder: seq<Course>, tagOrder: seq<Tag>)
    requires Enumerates(courseOrder, p.courses) && Enumerates(tagOrder, p.tags)
    ensures |Layout(p, courseOrder, tagOrder)|
         == |NameString(p.name)| + |PhoneString(p.phone)| + |EmailString(p.email)| + |AddressString(p.address)|
            + TotalLength(courseOrder, CourseString) + TotalLength(tagOrder, TagString)
            + |PHONE_MARKER| + |EMAIL_MARKER| + |ADDRESS_MARKER| + |COURSES_MARKER| + |TAGS_MARKER|
    ensures |PHONE_MARKER| + |EMAIL_MARKER| + |ADDRESS_MARKER| + |COURSES_MARKER| + |TAGS_MARKER| == 48
  {
    ConcatLength(courseOrder, CourseString);
    ConcatLength(tagOrder, TagString);
  }

  /** However the two sets happen to be iterated, the display string has the same length. */
  lemma LayoutLengthIndependentOfOrder(p: Person, co1: seq<Course>, to1: seq<Tag>, co2: seq<Course>, to2: seq<Tag>)
    requires Enumerates(co1, p.courses) && Enumerates(to1, p.tags)
    requires Enumerates(co2, p.courses) && Enumerates(to2, p.tags)
    ensures |Layout(p, co1, to1)| == |Layout(p, co2, to2)|
  {
    ConcatLengthIndependentOfOrder(p.courses, co1, co2, CourseString);
    ConcatLengthIndependentOfOrder(p.tags, to1, to2, TagString);
  }

  /** Where the course segment begins in the display string of `p`. */
  function CoursesStart(p: Person): (r: nat) {
    |Head(p)|
  }

  /** Where the tag segment begins when the courses of `p` are listed in `courseOrder`. */
  function TagsStart(p: Person, courseOrder: seq<Course>): (r: nat) {
    CoursesStart(p) + |Concat(courseOrder, CourseString)| + |TAGS_MARKER|
  }

  /**
    The course segment of the display string, which starts right after the
    Courses marker, is the string form of every course of the person, each
    exactly once, one after another without separator.
  */
  lemma LayoutListsEachCourseOnce(p: Person, courseOrder: seq<Course>, tagOrder: seq<Tag>)
    requires Enumerates(courseOrder, p.courses)
    ensures |courseOrder| == |p.courses|
    ensures forall c :: multiset(courseOrder)[c] == (if c in p.courses then 1 else 0)
    ensures ListedAt(Layout(p, courseOrder, tagOrder), CoursesStart(p), courseOrder, CourseString)
  {
    EnumeratesExactlyOnce(courseOrder, p.courses);
    CoursePositions(p, courseOrder, tagOrder);
  }

  /**
    The tag segment, which starts right after the Tags marker and ends the
    display string, is the string form of every tag of the person, each exactly
    once, one after another without separator.
  */
  lemma LayoutListsEachTagOnce(p: Person, courseOrder: seq<Course>, tagOrder: seq<Tag>)
    requires Enumerates(tagOrder, p.tags)
    ensures |tagOrder| == |p.tags|
    ensures forall t :: multiset(tagOrder)[t] == (if t in p.tags then 1 else 0)
    ensures |Layout(p, courseOrder, tagOrder)| == TagsStart(p, courseOrder) + |Concat(tagOrder, TagString)|
    ensures ListedAt(Layout(p, courseOrder, tagOrder), TagsStart(p, courseOrder), tagOrder, TagString)
  {
    EnumeratesExactlyOnce(tagOrder, p.tags);
    TagPositions(p, courseOrder, tagOrder);
    assert |Layout(p, courseOrder, tagOrder)| == TagsStart(p, courseOrder) + |Concat(tagOrder, TagString)| by {
      LabelSegments(p, courseOrder, tagOrder);
    }
  }

  lemma CoursePositions(p: Person, courseOrder: seq<Course>, tagOrder: seq<Tag>)
    ensures ListedAt(Layout(p, courseOrder, tagOrder), CoursesStart(p), courseOrder, CourseString)
  {
    var s := Layout(p, courseOrder, tagOrder);
    assert Occurs(Concat(courseOrder, CourseString), s, CoursesStart(p)) by {
      LabelSegments(p, courseOrder, tagOrder);
    }
    forall i | 0 <= i < |courseOrder|
      ensures Occurs(CourseString(courseOrder[i]), s, CoursesStart(p) + |Concat(courseOrder[..i], CourseString)|)
    {
      PieceOfSegment(s, CoursesStart(p), courseOrder, i, CourseString);
    }
  }

  lemma TagPositions(p: Person, courseOrder: seq<Course>, tagOrder: seq<Tag>)
    ensures ListedAt(Layout(p, courseOrder, tagOrder), TagsStart(p, courseOrder), tagOrder, TagString)
  {
    var s := Layout(p, courseOrder, tagOrder);
    assert Occurs(Concat(tagOrder, TagString), s, TagsStart(p, courseOrder)) by {
      LabelSegments(p, courseOrder, tagOrder);
    }
    forall i | 0 <= i < |tagOrder|
      ensures Occurs(TagString(tagOrder[i]), s, TagsStart(p, courseOrder) + |Concat(tagOrder[..i], TagString)|)
    {
      PieceOfSegment(s, TagsStart(p, courseOrder), tagOrder, i, TagString);
    }
  }

  /**
    The display string begins with the head; then come the course segment, the
    Tags marker and the tag segment.
  */
  lemma LabelSegments(p: Person, courseOrder: seq<Course>, tagOrder: seq<Tag>)
    ensures |Layout(p, courseOrder, tagOrder)| == TagsStart(p, courseOrder) + |Concat(tagOrder, TagString)|
    ensures Layout(p, courseOrder, tagOrder)[..CoursesStart(p)] == Head(p)
    ensures Occurs(TAGS_MARKER, Layout(p, courseOrder, tagOrder), TagsStart(p, courseOrder) - |TAGS_MARKER|)
    ensures Occurs(Concat(courseOrder, CourseString), Layout(p, courseOrder, tagOrder), CoursesStart(p))
    ensures Occurs(Concat(tagOrder, TagString), Layout(p, courseOrder, tagOrder), TagsStart(p, courseOrder))
  {
    var s := Layout(p, courseOrder, tagOrder);
    var courses, tags := Concat(courseOrder, CourseString), Concat(tagOrder, TagString);
    assert s[..|s|] == s;
    PieceAt(s, Head(p) + courses + TAGS_MARKER, tags);
    PieceAt(s, Head(p) + courses, TAGS_MARKER);
    PieceAt(s, Head(p), courses);
  }

  /**
    From offset `start` on, `s` holds the string forms of `xs` one after another
    without separator: the string form of the i-th element sits right after
    those of the elements before it.
  */
  ghost predicate ListedAt<T>(s: string, start: nat, xs: seq<T>, show: T -> string) {
    && Occurs(Concat(xs, show), s, start)
    && forall i :: 0 <= i < |xs| ==> Occurs(show(xs[i]), s, start + |Concat(xs[..i], show)|)
  }

  /** `piece` occurs in `s` at offset `at`. */
  ghost predicate Occurs(piece: string, s: string, at: nat) {
    at + |piece| <= |s| && s[at..at + |piece|] == piece
  }

  /**
    Where `s` holds the concatenated string forms of `xs` from `start` on, the
    string form of the i-th element sits after those of the elements before it.
  */
  lemma PieceOfSegment<T>(s: string, start: nat, xs: seq<T>, i: nat, show: T -> string)
    requires i < |xs|
    requires Occurs(Concat(xs, show), s, start)
    ensures Occurs(show(xs[i]), s, start + |Concat(xs[..i], show)|)
  {
    var whole := Concat(xs, show);
    ConcatPieceAt(xs, i, show);
    SliceOfSlice(s, start, start + |whole|, |Concat(xs[..i], show)|, |show(xs[i])|);
  }

  /** A slice of a slice is a slice of the whole. */
  lemma SliceOfSlice(s: string, from: nat, to: nat, off: nat, len: nat)
    requires from <= to <= |s| && off + len <= to - from
    ensures s[from..to][off..off + len] == s[from + off..from + off + len]
  {
    var inner := s[from..to];
    forall j | off <= j < off + len ensures inner[j] == s[from + j] {
    }
  }

  /** A person without courses and tags is displayed ending in "; Courses: ; Tags: ". */
  lemma LayoutWithoutLabels(p: Person, courseOrder: seq<Course>, tagOrder: seq<Tag>)
    requires p.courses == {} && p.tags == {}
    requires Enumerates(courseOrder, p.courses) && Enumerates(tagOrder, p.tags)
    ensures var s := Layout(p, courseOrder, tagOrder);
      |s| >= 19 && s[|s| - 19..] == "; Courses: ; Tags: "
  {
  }

  /**
    A person with one course CS2103 and one tag friends is displayed as its
    fields and the markers, piece after piece.
  */
  lemma LayoutExample(courseOrder: seq<Course>, tagOrder: seq<Tag>, birthday: Option<Birthday>, isFavourite: bool)
    requires Enumerates(courseOrder, {Course("CS2103")}) && Enumerates(tagOrder, {Tag("friends")})
    ensures Layout(Person(Name("Alice"), Phone("85355255"), Email("alice@example.com"), Address("123 Main St"),
                          {Tag("friends")}, {Course("CS2103")}, birthday, isFavourite),
                   courseOrder, tagOrder)
         == "Alice" + "; Phone: " + "85355255" + "; Email: " + "alice@example.com" + "; Address: " + "123 Main St"
            + "; Courses: " + "CS2103" + "; Tags: " + "friends"
  {
    EnumerationOfSingleton(courseOrder, Course("CS2103"));
    EnumerationOfSingleton(tagOrder, Tag("friends"));
    assert Concat(courseOrder, CourseString) == "CS2103";
    assert Concat(tagOrder, TagString) == "friends";
  }
}
