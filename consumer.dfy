/**
 * The Consumer entity and the data-annotation rules that model binding checks on it
 * (Models/Consumer.cs).
 */
module ConsumerModel {
  import opened Common

  /** A consumer record; every reference-typed property may be null. */
  datatype Consumer = Consumer(
    consumerId: Option<string>,
    name: Option<string>,
    email: Option<string>,
    address: Option<string>,
    phone: Option<string>,
    registrationDate: DateTime,
    photo: Option<string>)

  /** The annotated properties, in declaration order. */
  datatype Field = ConsumerIdField | NameField | EmailField | AddressField | PhoneField | RegistrationDateField | PhotoField

  /** One failed attribute: the property it is on and its error message. */
  datatype Violation = Violation(field: Field, message: string)

  /** The framework's `[EmailAddress]` and `[Phone]` format tests. */
  datatype FormatChecks = FormatChecks(isEmail: string -> bool, isPhone: string -> bool)

  /** `char.IsWhiteSpace`, restricted to the Latin-1 range. */
  predicate IsWhiteSpace(ch: char)
  {
    ch == ' ' || ch == '\t' || ch == '\n' || ch == '\U{B}' || ch == '\U{C}' || ch == '\r'
    || ch == '\U{85}' || ch == '\U{A0}'
  }

  /** `[Required]`: not null, not empty and not only white space. */
  predicate RequiredOk(s: Option<string>)
  {
    s.Some? && exists i | 0 <= i < |s.value| :: !IsWhiteSpace(s.value[i])
  }

  /** `[StringLength(max, MinimumLength = min)]` on `string.Length`, in UTF-16 code units: a null value passes. */
  predicate StringLengthOk(s: Option<string>, min: nat, max: nat)
  {
    s.None? || min <= Utf16Length(s.value) <= max
  }

  /** `[EmailAddress]` and `[Phone]`: a null value passes. */
  predicate FormatOk(s: Option<string>, test: string -> bool)
  {
    s.None? || test(s.value)
  }

  /** The error an attribute adds to the model state when its test fails. */
  function Check(ok: bool, field: Field, message: string): seq<Violation>
  {
    if ok then [] else [Violation(field, message)]
  }

  /** The errors of the attributes on property `f`, in declaration order. */
  function FieldViolations(c: Consumer, f: Field, checks: FormatChecks): seq<Violation>
  {
    match f
    case ConsumerIdField =>
      Check(RequiredOk(c.consumerId), f, "Consumer ID is required.")
      + Check(StringLengthOk(c.consumerId, 3, 10), f, "Consumer ID must be 3-10 characters")
    case NameField =>
      Check(RequiredOk(c.name), f, "Name is required")
      + Check(StringLengthOk(c.name, 2, 100), f, "Name must be 2-100 characters")
    case EmailField =>
      Check(RequiredOk(c.email), f, "Email is required")
      + Check(FormatOk(c.email, checks.isEmail), f, "Invalid email format")
    case AddressField =>
      Check(RequiredOk(c.address), f, "Address is required")
      + Check(StringLengthOk(c.address, 0, 200), f, "Address cannot exceed 200 characters")
    case PhoneField =>
      Check(RequiredOk(c.phone), f, "Phone is required")
      + Check(FormatOk(c.phone, checks.isPhone), f, "Invalid phone number format")
    case RegistrationDateField => []
    case PhotoField => []
  }

  /** The properties in declaration order. */
  const Fields: seq<Field> :=
    [ConsumerIdField, NameField, EmailField, AddressField, PhoneField, RegistrationDateField, PhotoField]

  /** The errors of the properties `fs`, property by property. */
  function ViolationsOf(c: Consumer, fs: seq<Field>, checks: FormatChecks): seq<Violation>
  {
    if fs == [] then [] else FieldViolations(c, fs[0], checks) + ViolationsOf(c, fs[1..], checks)
  }

  /** Every attribute of every property is evaluated, property by property. */
  function Violations(c: Consumer, checks: FormatChecks): seq<Violation>
  {
    ViolationsOf(c, Fields, checks)
  }

  /** What each property demands, stated on its own. */
  ghost predicate FieldValid(c: Consumer, f: Field, checks: FormatChecks)
  {
    match f
    case ConsumerIdField => RequiredOk(c.consumerId) && 3 <= Utf16Length(c.consumerId.value) <= 10
    case NameField => RequiredOk(c.name) && 2 <= Utf16Length(c.name.value) <= 100
    case EmailField => RequiredOk(c.email) && checks.isEmail(c.email.value)
    case AddressField => RequiredOk(c.address) && Utf16Length(c.address.value) <= 200
    case PhoneField => RequiredOk(c.phone) && checks.isPhone(c.phone.value)
    // a non-nullable DateTime always satisfies [Required]
    case RegistrationDateField => true
    // the photo carries no validation attribute
    case PhotoField => true
  }

  /** A consumer is valid when every property is. */
  ghost predicate IsValid(c: Consumer, checks: FormatChecks)
  {
    forall f :: FieldValid(c, f, checks)
  }

  /** The attributes of property `f` report errors on `f` only, and some of them fails exactly when `f` is not valid. */
  lemma {:induction false} FieldViolationsIff(c: Consumer, f: Field, checks: FormatChecks)
    ensures forall v | v in FieldViolations(c, f, checks) :: v.field == f
    ensures FieldViolations(c, f, checks) == [] <==> FieldValid(c, f, checks)
  {
  }

  /** Among the properties `fs`, property `f` is reported exactly when it is one of them and is not valid. */
  lemma {:induction false} ViolationsOfName(c: Consumer, checks: FormatChecks, fs: seq<Field>, f: Field)
    ensures (exists v | v in ViolationsOf(c, fs, checks) :: v.field == f) <==> f in fs && !FieldValid(c, f, checks)
  {
    if fs != [] {
      var head := FieldViolations(c, fs[0], checks);
      var tail := ViolationsOf(c, fs[1..], checks);
      ViolationsOfName(c, checks, fs[1..], f);
      FieldViolationsIff(c, fs[0], checks);
      assert fs == [fs[0]] + fs[1..];
      if fs[0] == f && !FieldValid(c, f, checks) {
        assert head[0] in head + tail;
      }
      if exists v | v in tail :: v.field == f {
        var v :| v in tail && v.field == f;
        assert v in head + tail;
      }
    }
  }

  /** Property `f` is reported in the model state exactly when it is not valid. */
  lemma {:induction false} ViolationsName(c: Consumer, checks: FormatChecks, f: Field)
    ensures (exists v | v in Violations(c, checks) :: v.field == f) <==> !FieldValid(c, f, checks)
  {
    ViolationsOfName(c, checks, Fields, f);
    assert f in Fields;
  }

  /** The model state holds no error exactly when the consumer is valid. */
  lemma {:induction false} NoViolationsIffValid(c: Consumer, checks: FormatChecks)
    ensures Violations(c, checks) == [] <==> IsValid(c, checks)
  {
    if Violations(c, checks) == [] {
      forall f ensures FieldValid(c, f, checks) {
        ViolationsName(c, checks, f);
      }
    } else {
      var v := Violations(c, checks)[0];
      ViolationsName(c, checks, v.field);
    }
  }

  /** Two consumers whose properties `fs` report the same errors report the same list for `fs`. */
  lemma {:induction false} ViolationsOfAgree(c: Consumer, d: Consumer, checks: FormatChecks, fs: seq<Field>)
    requires forall f | f in fs :: FieldViolations(c, f, checks) == FieldViolations(d, f, checks)
    ensures ViolationsOf(c, fs, checks) == ViolationsOf(d, fs, checks)
  {
    if fs != [] {
      assert fs[0] in fs;
      ViolationsOfAgree(c, d, checks, fs[1..]);
    }
  }

  /** Neither the registration date nor the photo can make a consumer invalid. */
  lemma {:induction false} DateAndPhotoUnconstrained(c: Consumer, checks: FormatChecks, date: DateTime, photo: Option<string>)
    ensures Violations(c.(registrationDate := date, photo := photo), checks) == Violations(c, checks)
  {
    ViolationsOfAgree(c.(registrationDate := date, photo := photo), c, checks, Fields);
  }

  /**
   * The bounds a valid consumer satisfies, property by property, in UTF-16 code units; a string
   * never has more characters than code units.
   */
  lemma {:induction false} ValidBounds(c: Consumer, checks: FormatChecks)
    requires Violations(c, checks) == []
    ensures c.consumerId.Some? && 3 <= Utf16Length(c.consumerId.value) <= 10 && |c.consumerId.value| <= 10
    ensures c.name.Some? && 2 <= Utf16Length(c.name.value) <= 100 && 1 <= |c.name.value| <= 100
    ensures c.email.Some? && c.email.value != "" && checks.isEmail(c.email.value)
    ensures c.address.Some? && 1 <= Utf16Length(c.address.value) <= 200 && 1 <= |c.address.value| <= 200
    ensures c.phone.Some? && c.phone.value != "" && checks.isPhone(c.phone.value)
  {
    NoViolationsIffValid(c, checks);
    assert FieldValid(c, ConsumerIdField, checks) && FieldValid(c, NameField, checks);
    assert FieldValid(c, EmailField, checks) && FieldValid(c, AddressField, checks);
    assert FieldValid(c, PhoneField, checks);
    Utf16LengthBounds(c.consumerId.value);
    Utf16LengthBounds(c.name.value);
    Utf16LengthBounds(c.address.value);
  }

  /** A character outside the Basic Multilingual Plane counts twice: a one-emoji name meets the two-character minimum. */
  lemma SupplementaryCharCountsTwice()
    ensures StringLengthOk(Some("\U{1F600}"), 2, 100)
    ensures !StringLengthOk(Some("\U{1F600}\U{1F600}\U{1F600}\U{1F600}\U{1F600}\U{1F600}"), 3, 10)
  {
  }
}
