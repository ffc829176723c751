/**
  The field value types of a person (Name, Phone, Email, Address, Birthday, Tag,
  Course) and the command-line Prefix. Their classes are not part of this model:
  validation, normalisation and the exact toString() are unknown here. Each is
  an opaque value that carries its own string form `shown`, and two values are
  equal exactly when their string forms are.
*/
module Fields {

  datatype Name = Name(shown: string)
  datatype Phone = Phone(shown: string)
  datatype Email = Email(shown: string)
  datatype Address = Address(shown: string)
  datatype Birthday = Birthday(shown: string)
  datatype Tag = Tag(shown: string)
  datatype Course = Course(shown: string)

  /** A command-line argument prefix such as "n/". */
  datatype Prefix = Prefix(shown: string)

  // The toString() of each field type.

  function NameString(n: Name): (r: string) { n.shown }
  function PhoneString(p: Phone): (r: string) { p.shown }
  function EmailString(e: Email): (r: string) { e.shown }
  function AddressString(a: Address): (r: string) { a.shown }
  function TagString(t: Tag): (r: string) { t.shown }
  function CourseString(c: Course): (r: string) { c.shown }
  function PrefixString(p: Prefix): (r: string) { p.shown }
}
