/** The reusable address sub-form. It owns no copy of the address: every
    keystroke emits a complete replacement record to its owner. Its only
    local state is the `isCollapsed` display flag. */
module AddressForm {
  import opened Common

  /** The ten string fields of an address. */
  datatype AddressData = AddressData(
    name: string,
    company: string,
    street1: string,
    street2: string,
    city: string,
    state: string,
    zipCode: string,
    country: string,
    phone: string,
    email: string)

  /** The inputs of the sub-form, one per field of `AddressData`. */
  datatype AddressField =
    | Name | Company | Street1 | Street2 | City
    | State | ZipCode | Country | Phone | Email

  /** The `name` attribute of each input, which is also the property it sets. */
  function FieldName(f: AddressField): string {
    match f
    case Name => "name"
    case Company => "company"
    case Street1 => "street1"
    case Street2 => "street2"
    case City => "city"
    case State => "state"
    case ZipCode => "zipCode"
    case Country => "country"
    case Phone => "phone"
    case Email => "email"
  }

  /** The input an event's `name` attribute designates, if any. */
  function FieldNamed(name: string): Option<AddressField> {
    if name == "name" then Some(Name)
    else if name == "company" then Some(Company)
    else if name == "street1" then Some(Street1)
    else if name == "street2" then Some(Street2)
    else if name == "city" then Some(City)
    else if name == "state" then Some(State)
    else if name == "zipCode" then Some(ZipCode)
    else if name == "country" then Some(Country)
    else if name == "phone" then Some(Phone)
    else if name == "email" then Some(Email)
    else None
  }

  /** The event name of every input leads back to that input, so no two
      inputs share a name. */
  lemma FieldNameRoundTrip(f: AddressField)
    ensures FieldNamed(FieldName(f)) == Some(f)
  {
  }

  lemma FieldNameInjective(f: AddressField, g: AddressField)
    ensures FieldName(f) == FieldName(g) <==> f == g
  {
    FieldNameRoundTrip(f);
    FieldNameRoundTrip(g);
  }

  function Get(a: AddressData, f: AddressField): string {
    match f
    case Name => a.name
    case Company => a.company
    case Street1 => a.street1
    case Street2 => a.street2
    case City => a.city
    case State => a.state
    case ZipCode => a.zipCode
    case Country => a.country
    case Phone => a.phone
    case Email => a.email
  }

  /** Two addresses that agree on every field are the same address. */
  lemma Extensionality(a: AddressData, b: AddressData)
    requires forall f :: Get(a, f) == Get(b, f)
    ensures a == b
  {
    assert Get(a, Name) == Get(b, Name);
    assert Get(a, Company) == Get(b, Company);
    assert Get(a, Street1) == Get(b, Street1);
    assert Get(a, Street2) == Get(b, Street2);
    assert Get(a, City) == Get(b, City);
    assert Get(a, State) == Get(b, State);
    assert Get(a, ZipCode) == Get(b, ZipCode);
    assert Get(a, Country) == Get(b, Country);
    assert Get(a, Phone) == Get(b, Phone);
    assert Get(a, Email) == Get(b, Email);
  }

  /** The record the sub-form emits for one keystroke: the incoming address
      with the edited field replaced by the input's value. */
  function HandleInputChange(addressData: AddressData, f: AddressField, value: string): (r: AddressData)
    ensures Get(r, f) == value
    ensures forall g :: g != f ==> Get(r, g) == Get(addressData, g)
  {
    match f
    case Name => addressData.(name := value)
    case Company => addressData.(company := value)
    case Street1 => addressData.(street1 := value)
    case Street2 => addressData.(street2 := value)
    case City => addressData.(city := value)
    case State => addressData.(state := value)
    case ZipCode => addressData.(zipCode := value)
    case Country => addressData.(country := value)
    case Phone => addressData.(phone := value)
    case Email => addressData.(email := value)
  }

  /** Writing back the value a field already holds emits the incoming
      address unchanged. */
  lemma SameValueIsNoChange(a: AddressData, f: AddressField)
    ensures HandleInputChange(a, f, Get(a, f)) == a
  {
    Extensionality(HandleInputChange(a, f, Get(a, f)), a);
  }

  /** Two edits of the same field: only the last value survives. */
  lemma LastEditWins(a: AddressData, f: AddressField, v: string, w: string)
    ensures HandleInputChange(HandleInputChange(a, f, v), f, w) == HandleInputChange(a, f, w)
  {
    Extensionality(HandleInputChange(HandleInputChange(a, f, v), f, w), HandleInputChange(a, f, w));
  }

  /** A form starts collapsed. */
  const InitiallyCollapsed: bool := true

  /** The inputs exist only while the form is expanded. */
  predicate InputsRendered(isCollapsed: bool) {
    !isCollapsed
  }

  /** What the user can do to one sub-form. */
  datatype Event =
    | ToggleCollapse
    | Input(field: AddressField, value: string)

  /** The sub-form's reaction: its next collapse flag and the address record
      it hands to its owner, if any. */
  datatype Reaction = Reaction(isCollapsed: bool, emitted: Option<AddressData>)

  /** One event applied to a sub-form showing `addressData`. An input event
      can only come from a rendered input, so a collapsed form emits
      nothing for it. */
  function HandleEvent(isCollapsed: bool, addressData: AddressData, e: Event): (r: Reaction)
    ensures e.ToggleCollapse? ==> r.isCollapsed == !isCollapsed && r.emitted == None
    ensures e.Input? ==> r.isCollapsed == isCollapsed
    ensures r.emitted.Some? <==> e.Input? && InputsRendered(isCollapsed)
    ensures r.emitted.Some? ==>
              && Get(r.emitted.value, e.field) == e.value
              && forall g :: g != e.field ==> Get(r.emitted.value, g) == Get(addressData, g)
  {
    match e
    case ToggleCollapse => Reaction(!isCollapsed, None)
    case Input(f, v) =>
      if InputsRendered(isCollapsed) then Reaction(isCollapsed, Some(HandleInputChange(addressData, f, v)))
      else Reaction(isCollapsed, None)
  }

  /** A new form starts collapsed: none of its inputs is rendered, so it
      hands nothing to its owner until it is expanded. */
  lemma NewFormEmitsNothing(addressData: AddressData, e: Event)
    ensures !InputsRendered(InitiallyCollapsed)
    ensures HandleEvent(InitiallyCollapsed, addressData, e).emitted == None
  {
  }

  /** Two toggles restore the collapse flag and emit nothing, so the owner's
      address is untouched. */
  lemma ToggleTwice(isCollapsed: bool, addressData: AddressData)
    ensures var once := HandleEvent(isCollapsed, addressData, ToggleCollapse);
            var twice := HandleEvent(once.isCollapsed, addressData, ToggleCollapse);
            twice.isCollapsed == isCollapsed && once.emitted == None && twice.emitted == None
  {
  }
}
