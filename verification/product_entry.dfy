/** The product entry form: one product record with two nested addresses
    and a dimensions sub-record, an error map keyed by field path, and the
    open/closed state of the four accordion panels. Every handler is a pure
    function from the current form state to the next one. */
module ProductEntry {
  import opened Common
  import opened Text
  import A = AddressForm

  /** Field path (`"sku"`, `"fromAddress.city"`) to message. */
  type ErrorMap = map<string, string>

  datatype ProductData = ProductData(
    name: string,
    orderNumber: string,
    fromAddress: A.AddressData,
    toAddress: A.AddressData,
    price: real,
    category: string,
    brand: string,
    sku: string,
    quantity: real,
    images: seq<string>,
    specifications: map<string, string>,
    dimensions: Dimensions)

  const EmptyAddress: A.AddressData := A.AddressData("", "", "", "", "", "", "", "", "", "")

  /** The record the form starts with and returns to after a reset or a
      successful submission. */
  const DefaultProduct: ProductData :=
    ProductData("", "", EmptyAddress, EmptyAddress, 0.0, "", "", "", 0.0, [], map[],
                Dimensions(0.0, 0.0, 0.0, 0.0, "in", "lb"))

  // ---------------------------------------------------------------------
  // Field updates
  // ---------------------------------------------------------------------

  datatype DimensionField = Length | Width | Height | Weight | Unit | WeightUnit

  /** The product form's own inputs (the address inputs belong to the
      sub-forms). */
  datatype Field =
    | Name | OrderNumber | Sku | Brand | Price | Category | Quantity
    | Dimension(d: DimensionField)

  function DimensionKey(d: DimensionField): string {
    match d
    case Length => "length"
    case Width => "width"
    case Height => "height"
    case Weight => "weight"
    case Unit => "unit"
    case WeightUnit => "weightUnit"
  }

  const DimensionsPrefix: string := "dimensions."

  /** The `name` attribute of each input; it is also the key of the error
      the input clears. */
  function InputName(f: Field): string {
    match f
    case Name => "name"
    case OrderNumber => "orderNumber"
    case Sku => "sku"
    case Brand => "brand"
    case Price => "price"
    case Category => "category"
    case Quantity => "quantity"
    case Dimension(d) => DimensionsPrefix + DimensionKey(d)
  }

  /** The second piece of `name.split(".")` once the leading `dimensions.`
      is gone: everything up to the next dot. */
  function UpToDot(s: string): (r: string)
    ensures r <= s
    ensures '.' !in r
    ensures |r| < |s| ==> s[|r|] == '.'
  {
    if |s| == 0 || s[0] == '.' then ""
    else
      var rest := UpToDot(s[1..]);
      assert |rest| < |s| - 1 ==> s[|rest| + 1] == s[1..][|rest|];
      [s[0]] + rest
  }

  function DimensionNamed(key: string): Option<DimensionField> {
    if key == "length" then Some(Length)
    else if key == "width" then Some(Width)
    else if key == "height" then Some(Height)
    else if key == "weight" then Some(Weight)
    else if key == "unit" then Some(Unit)
    else if key == "weightUnit" then Some(WeightUnit)
    else None
  }

  function TopLevelNamed(name: string): Option<Field> {
    if name == "name" then Some(Name)
    else if name == "orderNumber" then Some(OrderNumber)
    else if name == "sku" then Some(Sku)
    else if name == "brand" then Some(Brand)
    else if name == "price" then Some(Price)
    else if name == "category" then Some(Category)
    else if name == "quantity" then Some(Quantity)
    else None
  }

  /** How the change handler routes an input name: names starting with
      `dimensions.` address the dimension named by the next path segment,
      every other name addresses a top-level field. A routed name is the
      input's own name, or, for a dimension, that name followed by a further
      dot-separated segment. */
  function FieldOfInputName(name: string): (r: Option<Field>)
    ensures r.Some? ==> InputName(r.value) <= name
    ensures r.Some? && |InputName(r.value)| < |name| ==> r.value.Dimension? && name[|InputName(r.value)|] == '.'
  {
    if DimensionsPrefix <= name then
      var rest := name[|DimensionsPrefix|..];
      var key := UpToDot(rest);
      match DimensionNamed(key)
      case Some(d) =>
        DimensionNamedKey(key);
        assert name == DimensionsPrefix + rest;
        Some(Dimension(d))
      case None => None
    else
      TopLevelNamedName(name);
      TopLevelNamed(name)
  }

  lemma DimensionNamedKey(key: string)
    ensures DimensionNamed(key).Some? ==> DimensionKey(DimensionNamed(key).value) == key
  {
  }

  lemma TopLevelNamedName(name: string)
    ensures TopLevelNamed(name).Some? ==> InputName(TopLevelNamed(name).value) == name
  {
  }

  lemma {:induction false} UpToDotWithoutDot(s: string)
    requires '.' !in s
    ensures UpToDot(s) == s
    decreases |s|
  {
    if |s| > 0 {
      assert s[0] != '.' && '.' !in s[1..];
      UpToDotWithoutDot(s[1..]);
      assert s == [s[0]] + s[1..];
    }
  }

  /** Each input's name routes back to that input. */
  lemma InputNameRoundTrip(f: Field)
    ensures FieldOfInputName(InputName(f)) == Some(f)
  {
    if f.Dimension? {
      DimensionNameRoundTrip(f.d);
    } else {
      TopLevelNameRoundTrip(f);
    }
  }

  lemma DimensionNameRoundTrip(d: DimensionField)
    ensures FieldOfInputName(InputName(Dimension(d))) == Some(Dimension(d))
  {
    var key := DimensionKey(d);
    assert DimensionsPrefix <= InputName(Dimension(d));
    assert InputName(Dimension(d))[|DimensionsPrefix|..] == key;
    UpToDotWithoutDot(key);
  }

  lemma TopLevelNameRoundTrip(f: Field)
    requires !f.Dimension?
    ensures FieldOfInputName(InputName(f)) == Some(f)
  {
    assert InputName(f)[0] != DimensionsPrefix[0];
  }

  /** A parser in the manner of `parseFloat`: `None` is a result of NaN. */
  type NumberParser = string -> Option<real>

  /** `parseFloat(value) || 0`: NaN and zero are both falsy, so both give 0,
      and any other parsed number is stored as parsed. */
  function Coerce(parse: NumberParser, value: string): (r: real)
    ensures r == 0.0 <==> parse(value).None? || parse(value) == Some(0.0)
    ensures r != 0.0 ==> parse(value) == Some(r)
  {
    match parse(value)
    case None => 0.0
    case Some(x) => if x == 0.0 then 0.0 else x
  }

  /** The inputs the handler stores as numbers: price, quantity and every
      dimension except the two unit selections. */
  predicate IsNumeric(f: Field) {
    f.Price? || f.Quantity? || (f.Dimension? && f.d != Unit && f.d != WeightUnit)
  }

  /** A field's content, whether text or number. */
  datatype FieldValue = Text(text: string) | Number(number: real)

  function ValueOf(d: ProductData, f: Field): FieldValue {
    match f
    case Name => Text(d.name)
    case OrderNumber => Text(d.orderNumber)
    case Sku => Text(d.sku)
    case Brand => Text(d.brand)
    case Price => Number(d.price)
    case Category => Text(d.category)
    case Quantity => Number(d.quantity)
    case Dimension(Length) => Number(d.dimensions.length)
    case Dimension(Width) => Number(d.dimensions.width)
    case Dimension(Height) => Number(d.dimensions.height)
    case Dimension(Weight) => Number(d.dimensions.weight)
    case Dimension(Unit) => Text(d.dimensions.unit)
    case Dimension(WeightUnit) => Text(d.dimensions.weightUnit)
  }

  /** Records that agree on every input field, on both addresses and on the
      two unused collections are equal: `ValueOf` misses nothing. */
  lemma ProductExtensionality(a: ProductData, b: ProductData)
    requires forall f :: ValueOf(a, f) == ValueOf(b, f)
    requires a.fromAddress == b.fromAddress && a.toAddress == b.toAddress
    requires a.images == b.images && a.specifications == b.specifications
    ensures a == b
  {
    assert ValueOf(a, Name) == ValueOf(b, Name);
    assert ValueOf(a, OrderNumber) == ValueOf(b, OrderNumber);
    assert ValueOf(a, Sku) == ValueOf(b, Sku);
    assert ValueOf(a, Brand) == ValueOf(b, Brand);
    assert ValueOf(a, Price) == ValueOf(b, Price);
    assert ValueOf(a, Category) == ValueOf(b, Category);
    assert ValueOf(a, Quantity) == ValueOf(b, Quantity);
    assert ValueOf(a, Dimension(Length)) == ValueOf(b, Dimension(Length));
    assert ValueOf(a, Dimension(Width)) == ValueOf(b, Dimension(Width));
    assert ValueOf(a, Dimension(Height)) == ValueOf(b, Dimension(Height));
    assert ValueOf(a, Dimension(Weight)) == ValueOf(b, Dimension(Weight));
    assert ValueOf(a, Dimension(Unit)) == ValueOf(b, Dimension(Unit));
    assert ValueOf(a, Dimension(WeightUnit)) == ValueOf(b, Dimension(WeightUnit));
  }

  function UpdateDimension(dims: Dimensions, k: DimensionField, value: string, parse: NumberParser): Dimensions {
    match k
    case Unit => dims.(unit := value)
    case WeightUnit => dims.(weightUnit := value)
    case Length => dims.(length := Coerce(parse, value))
    case Width => dims.(width := Coerce(parse, value))
    case Height => dims.(height := Coerce(parse, value))
    case Weight => dims.(weight := Coerce(parse, value))
  }

  /** The record after typing `value` into input `f`: numeric inputs hold
      the coerced number, the others the raw text, and nothing else moves. */
  function UpdateField(d: ProductData, f: Field, value: string, parse: NumberParser): (r: ProductData)
    ensures IsNumeric(f) ==> ValueOf(r, f) == Number(Coerce(parse, value))
    ensures !IsNumeric(f) ==> ValueOf(r, f) == Text(value)
    ensures forall g :: g != f ==> ValueOf(r, g) == ValueOf(d, g)
    ensures r.fromAddress == d.fromAddress && r.toAddress == d.toAddress
    ensures r.images == d.images && r.specifications == d.specifications
  {
    match f
    case Name => d.(name := value)
    case OrderNumber => d.(orderNumber := value)
    case Sku => d.(sku := value)
    case Brand => d.(brand := value)
    case Price => d.(price := Coerce(parse, value))
    case Category => d.(category := value)
    case Quantity => d.(quantity := Coerce(parse, value))
    case Dimension(k) => d.(dimensions := UpdateDimension(d.dimensions, k, value, parse))
  }

  /** Input the parser cannot read stores 0 in a numeric field rather than
      being refused. */
  lemma UnparsableInputStoresZero(d: ProductData, f: Field, value: string, parse: NumberParser)
    requires IsNumeric(f) && parse(value).None?
    ensures ValueOf(UpdateField(d, f, value, parse), f) == Number(0.0)
  {
  }

  /** `if (errors[key])`: the key holds a non-empty message. */
  predicate HasMessage(errors: ErrorMap, key: string) {
    key in errors && errors[key] != ""
  }

  /** Blanks the message under `key` when there is one; keys are neither
      added nor removed and every other message is kept. */
  function ClearFieldError(errors: ErrorMap, key: string): (r: ErrorMap)
    ensures r.Keys == errors.Keys
    ensures key in r ==> r[key] == ""
    ensures forall k :: k in errors && k != key ==> r[k] == errors[k]
    ensures !HasMessage(errors, key) ==> r == errors
  {
    if HasMessage(errors, key) then errors[key := ""] else errors
  }

  // ---------------------------------------------------------------------
  // Form state
  // ---------------------------------------------------------------------

  datatype Section = BasicInfo | Pricing | DimensionsSection | Additional

  datatype Accordion = Accordion(basicInfo: bool, pricing: bool, dimensions: bool, additional: bool)

  /** Basic information and pricing start open, the others closed. */
  const InitialAccordion: Accordion := Accordion(true, true, false, false)

  function IsOpen(a: Accordion, s: Section): bool {
    match s
    case BasicInfo => a.basicInfo
    case Pricing => a.pricing
    case DimensionsSection => a.dimensions
    case Additional => a.additional
  }

  /** Flips the one panel. */
  function ToggleAccordion(a: Accordion, s: Section): (r: Accordion)
    ensures IsOpen(r, s) == !IsOpen(a, s)
    ensures forall t :: t != s ==> IsOpen(r, t) == IsOpen(a, t)
  {
    match s
    case BasicInfo => a.(basicInfo := !a.basicInfo)
    case Pricing => a.(pricing := !a.pricing)
    case DimensionsSection => a.(dimensions := !a.dimensions)
    case Additional => a.(additional := !a.additional)
  }

  /** Toggling a panel twice restores the accordion. */
  lemma ToggleTwice(a: Accordion, s: Section)
    ensures ToggleAccordion(ToggleAccordion(a, s), s) == a
  {
  }

  datatype FormState = FormState(data: ProductData, errors: ErrorMap, accordion: Accordion)

  const InitialState: FormState := FormState(DefaultProduct, map[], InitialAccordion)

  /** One keystroke in a product input: store the value, then blank that
      input's error message if it had one. */
  function HandleInputChange(s: FormState, f: Field, value: string, parse: NumberParser): (r: FormState)
    ensures r.data == UpdateField(s.data, f, value, parse)
    ensures r.errors.Keys == s.errors.Keys
    ensures InputName(f) in r.errors ==> r.errors[InputName(f)] == ""
    ensures forall k :: k in s.errors && k != InputName(f) ==> r.errors[k] == s.errors[k]
    ensures r.accordion == s.accordion
  {
    s.(data := UpdateField(s.data, f, value, parse), errors := ClearFieldError(s.errors, InputName(f)))
  }

  /** The reset button: the default record and no errors; the panels stay
      as they are. */
  function Reset(s: FormState): (r: FormState)
    ensures r.data == InitialState.data && r.errors == InitialState.errors
    ensures r.accordion == s.accordion
  {
    s.(data := DefaultProduct, errors := map[])
  }

  /** Toggling a panel touches neither the record nor the errors. */
  function HandleToggle(s: FormState, section: Section): (r: FormState)
    ensures r.data == s.data && r.errors == s.errors
    ensures IsOpen(r.accordion, section) != IsOpen(s.accordion, section)
  {
    s.(accordion := ToggleAccordion(s.accordion, section))
  }

  // ---------------------------------------------------------------------
  // The two address sub-forms
  // ---------------------------------------------------------------------

  datatype Side = From | To

  function Other(side: Side): Side {
    if side == From then To else From
  }

  /** Error keys of a side's address start with this prefix. */
  function SidePrefix(side: Side): string {
    if side == From then "fromAddress." else "toAddress."
  }

  function AddressOn(d: ProductData, side: Side): A.AddressData {
    if side == From then d.fromAddress else d.toAddress
  }

  /** The error map a sub-form receives: its side's keys with the side
      prefix removed, messages kept. The component strips the prefix with
      `replace`, which acts on the first occurrence, here the leading one. */
  function ErrorsFor(errors: ErrorMap, side: Side): (r: ErrorMap)
    ensures forall key :: key in r <==> SidePrefix(side) + key in errors
    ensures forall key :: key in r ==> r[key] == errors[SidePrefix(side) + key]
  {
    var p := SidePrefix(side);
    var keys := set k | k in errors && p <= k :: k[|p|..];
    assert forall k :: p <= k ==> k == p + k[|p|..];
    assert forall key :: p + key in errors ==> (p + key)[|p|..] == key && p <= p + key;
    map key | key in keys :: errors[p + key]
  }

  /** Deletes every error of one side. */
  function ClearSideErrors(errors: ErrorMap, side: Side): ErrorMap {
    map k | k in errors && !(SidePrefix(side) <= k) :: errors[k]
  }

  /** The address change handler of one side: the new address replaces that
      side's address, every error under that side's prefix is deleted, and
      everything else stays. */
  function HandleAddressChange(s: FormState, side: Side, address: A.AddressData): (r: FormState)
    ensures AddressOn(r.data, side) == address
    ensures AddressOn(r.data, Other(side)) == AddressOn(s.data, Other(side))
    ensures forall f :: ValueOf(r.data, f) == ValueOf(s.data, f)
    ensures r.data.images == s.data.images && r.data.specifications == s.data.specifications
    ensures forall k :: k in r.errors <==> k in s.errors && !(SidePrefix(side) <= k)
    ensures forall k :: k in r.errors ==> r.errors[k] == s.errors[k]
    ensures ErrorsFor(r.errors, side) == map[]
    ensures r.accordion == s.accordion
  {
    var data := if side == From then s.data.(fromAddress := address) else s.data.(toAddress := address);
    var r := s.(data := data, errors := ClearSideErrors(s.errors, side));
    assert forall key :: SidePrefix(side) <= SidePrefix(side) + key;
    r
  }

  /** The other side's sub-form sees the same errors as before. */
  lemma AddressChangeKeepsOtherSide(s: FormState, side: Side, address: A.AddressData)
    ensures ErrorsFor(HandleAddressChange(s, side, address).errors, Other(side)) == ErrorsFor(s.errors, Other(side))
  {
    ClearingKeepsOtherSide(s.errors, side);
  }

  /** Deleting one side's errors leaves the other side's projection as it
      was. */
  lemma ClearingKeepsOtherSide(errors: ErrorMap, side: Side)
    ensures ErrorsFor(ClearSideErrors(errors, side), Other(side)) == ErrorsFor(errors, Other(side))
  {
    var cleared := ClearSideErrors(errors, side);
    var p, q := SidePrefix(side), SidePrefix(Other(side));
    forall key ensures q + key in cleared <==> q + key in errors {
      assert (q + key)[0] != p[0];
    }
  }

  /** A keystroke in a sub-form, passed through the sub-form's change
      handler and then its owner's: the edited field holds the new value,
      the rest of that address and the other address are kept, and the
      sub-form is left with no errors. */
  lemma AddressKeystroke(s: FormState, side: Side, f: A.AddressField, value: string)
    ensures var r := HandleAddressChange(s, side, A.HandleInputChange(AddressOn(s.data, side), f, value));
            && A.Get(AddressOn(r.data, side), f) == value
            && (forall g :: g != f ==> A.Get(AddressOn(r.data, side), g) == A.Get(AddressOn(s.data, side), g))
            && AddressOn(r.data, Other(side)) == AddressOn(s.data, Other(side))
            && ErrorsFor(r.errors, side) == map[]
  {
  }

  // ---------------------------------------------------------------------
  // Validation
  // ---------------------------------------------------------------------

  /** The address fields a submission needs; company and second street
      line are optional. */
  const RequiredAddressFields: seq<A.AddressField> :=
    [A.Name, A.Street1, A.City, A.State, A.ZipCode, A.Country, A.Phone, A.Email]

  function Role(side: Side): string {
    if side == From then "Sender" else "Recipient"
  }

  /** How messages name an address field. The two optional fields are never
      checked, so their labels never reach a message. */
  function FieldLabel(f: A.AddressField): string {
    match f
    case Name => "name"
    case Company => "company"
    case Street1 => "street address"
    case Street2 => "street address line 2"
    case City => "city"
    case State => "state"
    case ZipCode => "ZIP code"
    case Country => "country"
    case Phone => "phone"
    case Email => "email"
  }

  /** One rule of the validator. */
  datatype Check =
    | ProductNameCheck
    | OrderNumberCheck
    | AddressCheck(side: Side, field: A.AddressField)
    | PriceCheck
    | CategoryCheck
    | SkuCheck
    | QuantityCheck

  /** The error key a failing rule writes. */
  function CheckKey(c: Check): string {
    match c
    case ProductNameCheck => "name"
    case OrderNumberCheck => "orderNumber"
    case AddressCheck(side, f) => SidePrefix(side) + A.FieldName(f)
    case PriceCheck => "price"
    case CategoryCheck => "category"
    case SkuCheck => "sku"
    case QuantityCheck => "quantity"
  }

  function CheckMessage(c: Check): string {
    match c
    case ProductNameCheck => "Product name is required"
    case OrderNumberCheck => "Order number is required"
    case AddressCheck(side, f) => Role(side) + " " + FieldLabel(f) + " is required"
    case PriceCheck => "Price must be greater than 0"
    case CategoryCheck => "Category is required"
    case SkuCheck => "SKU is required"
    case QuantityCheck => "Quantity cannot be negative"
  }

  /** When a rule rejects the record. Text fields must be non-blank after
      trimming, except the category, which is only tested for emptiness. */
  predicate Fails(d: ProductData, c: Check) {
    match c
    case ProductNameCheck => IsBlank(d.name)
    case OrderNumberCheck => IsBlank(d.orderNumber)
    case AddressCheck(side, f) => IsBlank(A.Get(AddressOn(d, side), f))
    case PriceCheck => d.price <= 0.0
    case CategoryCheck => d.category == ""
    case SkuCheck => IsBlank(d.sku)
    case QuantityCheck => d.quantity < 0.0
  }

  function AddressChecks(side: Side): (r: seq<Check>)
    ensures |r| == |RequiredAddressFields|
    ensures forall i :: 0 <= i < |r| ==> r[i] == AddressCheck(side, RequiredAddressFields[i])
  {
    seq(|RequiredAddressFields|, i requires 0 <= i < |RequiredAddressFields| => AddressCheck(side, RequiredAddressFields[i]))
  }

  /** The validator's rules in the order it applies them. */
  const Checks: seq<Check> :=
    [ProductNameCheck, OrderNumberCheck] + AddressChecks(From) + AddressChecks(To)
    + [PriceCheck, CategoryCheck, SkuCheck, QuantityCheck]

  /** Which rules the validator applies: every non-address rule, and an
      address rule exactly for the required address fields. */
  lemma CheckMembership(c: Check)
    ensures c in Checks <==> !c.AddressCheck? || c.field in RequiredAddressFields
  {
    var from, to := AddressChecks(From), AddressChecks(To);
    assert Checks == [ProductNameCheck, OrderNumberCheck] + from + to
                     + [PriceCheck, CategoryCheck, SkuCheck, QuantityCheck];
    if c.AddressCheck? && c.field in RequiredAddressFields {
      var i :| 0 <= i < |RequiredAddressFields| && RequiredAddressFields[i] == c.field;
      if c.side == From {
        assert from[i] == c;
      } else {
        assert to[i] == c;
      }
    }
  }

  lemma FieldNameLength(f: A.AddressField)
    ensures 4 <= |A.FieldName(f)|
  {
  }

  /** Distinct rules write distinct keys. */
  lemma CheckKeyInjective(c: Check, c': Check)
    ensures CheckKey(c) == CheckKey(c') <==> c == c'
  {
    if c != c' {
      if c.AddressCheck? && c'.AddressCheck? {
        var p := SidePrefix(c.side);
        if c.side == c'.side {
          assert CheckKey(c)[|p|..] == A.FieldName(c.field);
          assert CheckKey(c')[|p|..] == A.FieldName(c'.field);
          A.FieldNameInjective(c.field, c'.field);
        } else {
          assert CheckKey(c)[0] != CheckKey(c')[0];
        }
      } else if c.AddressCheck? {
        FieldNameLength(c.field);
        assert |CheckKey(c')| <= 11 < |CheckKey(c)|;
      } else if c'.AddressCheck? {
        FieldNameLength(c'.field);
        assert |CheckKey(c)| <= 11 < |CheckKey(c')|;
      }
    }
  }

  /** Applies the rules in order, writing each failing rule's message under
      its key. */
  function RunChecks(d: ProductData, cs: seq<Check>, acc: ErrorMap): ErrorMap
    decreases |cs|
  {
    if |cs| == 0 then acc
    else
      var next := if Fails(d, cs[0]) then acc[CheckKey(cs[0]) := CheckMessage(cs[0])] else acc;
      RunChecks(d, cs[1..], next)
  }

  /** The keys after the rules have run: the keys already present, and the
      keys of the failing rules. */
  lemma {:induction false} RunChecksKeys(d: ProductData, cs: seq<Check>, acc: ErrorMap, k: string)
    ensures k in RunChecks(d, cs, acc) <==> k in acc || exists c :: c in cs && Fails(d, c) && CheckKey(c) == k
    decreases |cs|
  {
    if |cs| > 0 {
      var next := if Fails(d, cs[0]) then acc[CheckKey(cs[0]) := CheckMessage(cs[0])] else acc;
      RunChecksKeys(d, cs[1..], next, k);
      assert k in next <==> k in acc || (Fails(d, cs[0]) && CheckKey(cs[0]) == k);
      assert forall c :: c in cs <==> c == cs[0] || c in cs[1..] by {
        assert cs == [cs[0]] + cs[1..];
      }
    }
  }

  /** A key no remaining failing rule writes keeps its message. */
  lemma {:induction false} RunChecksKeeps(d: ProductData, cs: seq<Check>, acc: ErrorMap, k: string)
    requires k in acc
    requires forall c :: c in cs && Fails(d, c) ==> CheckKey(c) != k
    ensures k in RunChecks(d, cs, acc) && RunChecks(d, cs, acc)[k] == acc[k]
    decreases |cs|
  {
    if |cs| > 0 {
      assert cs[0] in cs;
      var next := if Fails(d, cs[0]) then acc[CheckKey(cs[0]) := CheckMessage(cs[0])] else acc;
      assert forall c :: c in cs[1..] ==> c in cs;
      RunChecksKeeps(d, cs[1..], next, k);
    }
  }

  /** A failing rule's key carries that rule's message in the end. */
  lemma {:induction false} RunChecksMessage(d: ProductData, cs: seq<Check>, acc: ErrorMap, c: Check)
    requires c in cs && Fails(d, c)
    ensures CheckKey(c) in RunChecks(d, cs, acc)
    ensures RunChecks(d, cs, acc)[CheckKey(c)] == CheckMessage(c)
    decreases |cs|
  {
    assert cs == [cs[0]] + cs[1..];
    var next := if Fails(d, cs[0]) then acc[CheckKey(cs[0]) := CheckMessage(cs[0])] else acc;
    if c in cs[1..] {
      RunChecksMessage(d, cs[1..], next, c);
    } else {
      assert c == cs[0];
      forall c' | c' in cs[1..] && Fails(d, c') ensures CheckKey(c') != CheckKey(c) {
        CheckKeyInjective(c', c);
      }
      RunChecksKeeps(d, cs[1..], next, CheckKey(c));
    }
  }

  /** The map `validateForm` builds. */
  function ValidationErrors(d: ProductData): ErrorMap {
    RunChecks(d, Checks, map[])
  }

  /** The validator's verdict together with the map it stores. */
  datatype Validation = Validation(errors: ErrorMap, ok: bool)

  /** `validateForm`: build the map, and accept exactly when it has no key,
      which is exactly when no rule fails. */
  function ValidateForm(d: ProductData): (r: Validation)
    ensures r.errors == ValidationErrors(d)
    ensures r.ok <==> forall c :: c in Checks ==> !Fails(d, c)
  {
    var errors := ValidationErrors(d);
    NoKeyIffNoCheckFails(d);
    Validation(errors, |errors| == 0)
  }

  predicate IsValid(d: ProductData) {
    ValidateForm(d).ok
  }

  /** Rule by rule: a rule's key is in the map exactly when the validator
      applies the rule and the rule fails, and then it holds the rule's
      message. */
  lemma ValidationErrorsSpec(d: ProductData, c: Check)
    ensures CheckKey(c) in ValidationErrors(d) <==> c in Checks && Fails(d, c)
    ensures CheckKey(c) in ValidationErrors(d) ==> ValidationErrors(d)[CheckKey(c)] == CheckMessage(c)
  {
    RunChecksKeys(d, Checks, map[], CheckKey(c));
    if CheckKey(c) in ValidationErrors(d) {
      var c' :| c' in Checks && Fails(d, c') && CheckKey(c') == CheckKey(c);
      CheckKeyInjective(c, c');
      RunChecksMessage(d, Checks, map[], c);
    }
  }

  /** The map holds nothing but the keys of failing rules. */
  lemma ValidationKeysAreCheckKeys(d: ProductData, k: string)
    requires k in ValidationErrors(d)
    ensures exists c :: c in Checks && Fails(d, c) && CheckKey(c) == k
  {
    RunChecksKeys(d, Checks, map[], k);
  }

  /** The map is empty exactly when no rule fails. */
  lemma NoKeyIffNoCheckFails(d: ProductData)
    ensures |ValidationErrors(d)| == 0 <==> forall c :: c in Checks ==> !Fails(d, c)
  {
    var errors := ValidationErrors(d);
    if |errors| == 0 {
      forall c | c in Checks ensures !Fails(d, c) {
        ValidationErrorsSpec(d, c);
      }
    } else {
      var k :| k in errors;
      ValidationKeysAreCheckKeys(d, k);
    }
  }

  /** A rule that is not about an address is always applied: its key is
      reported exactly when it fails, with its message. */
  lemma ProductRule(d: ProductData, c: Check)
    requires !c.AddressCheck?
    ensures CheckKey(c) in ValidationErrors(d) <==> Fails(d, c)
    ensures CheckKey(c) in ValidationErrors(d) ==> ValidationErrors(d)[CheckKey(c)] == CheckMessage(c)
  {
    CheckMembership(c);
    ValidationErrorsSpec(d, c);
  }

  /** The product name must hold more than white space. */
  lemma NameRequired(d: ProductData)
    ensures "name" in ValidationErrors(d) <==> IsBlank(d.name)
    ensures "name" in ValidationErrors(d) ==> ValidationErrors(d)["name"] == "Product name is required"
  {
    ProductRule(d, ProductNameCheck);
  }

  /** The order number must hold more than white space. */
  lemma OrderNumberRequired(d: ProductData)
    ensures "orderNumber" in ValidationErrors(d) <==> IsBlank(d.orderNumber)
    ensures "orderNumber" in ValidationErrors(d) ==> ValidationErrors(d)["orderNumber"] == "Order number is required"
  {
    ProductRule(d, OrderNumberCheck);
  }

  /** The price must be positive. */
  lemma PricePositive(d: ProductData)
    ensures "price" in ValidationErrors(d) <==> d.price <= 0.0
    ensures "price" in ValidationErrors(d) ==> ValidationErrors(d)["price"] == "Price must be greater than 0"
  {
    ProductRule(d, PriceCheck);
  }

  /** The category must be non-empty; it is not trimmed. */
  lemma CategoryRequired(d: ProductData)
    ensures "category" in ValidationErrors(d) <==> d.category == ""
    ensures "category" in ValidationErrors(d) ==> ValidationErrors(d)["category"] == "Category is required"
  {
    ProductRule(d, CategoryCheck);
  }

  /** The SKU must hold more than white space. */
  lemma SkuRequired(d: ProductData)
    ensures "sku" in ValidationErrors(d) <==> IsBlank(d.sku)
    ensures "sku" in ValidationErrors(d) ==> ValidationErrors(d)["sku"] == "SKU is required"
  {
    ProductRule(d, SkuCheck);
  }

  /** The quantity must not be negative; zero passes. */
  lemma QuantityNotNegative(d: ProductData)
    ensures "quantity" in ValidationErrors(d) <==> d.quantity < 0.0
    ensures "quantity" in ValidationErrors(d) ==> ValidationErrors(d)["quantity"] == "Quantity cannot be negative"
  {
    ProductRule(d, QuantityCheck);
  }

  /** Every rule's key starts with one of eight letters. */
  lemma CheckKeyHead(c: Check)
    ensures |CheckKey(c)| > 0
    ensures CheckKey(c)[0] in {'n', 'o', 'f', 't', 'p', 'c', 's', 'q'}
  {
    if c.AddressCheck? {
      assert CheckKey(c)[0] == SidePrefix(c.side)[0];
    }
  }

  /** Brand and the dimension fields are never validated. */
  lemma UncheckedFieldsNeverReported(d: ProductData, f: Field)
    requires f.Brand? || f.Dimension?
    ensures InputName(f) !in ValidationErrors(d)
  {
    var name := InputName(f);
    assert name[0] == 'b' || name[0] == 'd';
    forall c ensures CheckKey(c) != name {
      CheckKeyHead(c);
    }
    if name in ValidationErrors(d) {
      ValidationKeysAreCheckKeys(d, name);
    }
  }

  /** The address rules: `<side>.<field>` is reported exactly when the
      field is required and blank. */
  lemma AddressFieldReported(d: ProductData, side: Side, f: A.AddressField)
    ensures SidePrefix(side) + A.FieldName(f) in ValidationErrors(d)
            <==> f in RequiredAddressFields && IsBlank(A.Get(AddressOn(d, side), f))
  {
    var c := AddressCheck(side, f);
    AddressRule(d, c);
    assert CheckKey(c) == SidePrefix(side) + A.FieldName(f);
  }

  /** A reported address field carries "<role> <label> is required". */
  lemma AddressFieldMessage(d: ProductData, side: Side, f: A.AddressField)
    ensures var key := SidePrefix(side) + A.FieldName(f);
            key in ValidationErrors(d) ==> ValidationErrors(d)[key] == Role(side) + " " + FieldLabel(f) + " is required"
  {
    var c := AddressCheck(side, f);
    AddressRule(d, c);
    assert CheckKey(c) == SidePrefix(side) + A.FieldName(f);
    assert CheckMessage(c) == Role(side) + " " + FieldLabel(f) + " is required";
  }

  /** Company and the second street line are optional: never reported. */
  lemma OptionalAddressFieldsNeverReported(d: ProductData, side: Side, f: A.AddressField)
    ensures f == A.Company || f == A.Street2 ==> SidePrefix(side) + A.FieldName(f) !in ValidationErrors(d)
  {
    if f == A.Company || f == A.Street2 {
      var c := AddressCheck(side, f);
      assert f !in RequiredAddressFields;
      AddressRule(d, c);
      assert CheckKey(c) == SidePrefix(side) + A.FieldName(f);
    }
  }

  /** An address rule's key is reported exactly when its field is required
      and blank, and then with its message. */
  lemma AddressRule(d: ProductData, c: Check)
    requires c.AddressCheck?
    ensures CheckKey(c) in ValidationErrors(d) <==> c.field in RequiredAddressFields && IsBlank(A.Get(AddressOn(d, c.side), c.field))
    ensures CheckKey(c) in ValidationErrors(d) ==> ValidationErrors(d)[CheckKey(c)] == CheckMessage(c)
  {
    CheckMembership(c);
    ValidationErrorsSpec(d, c);
  }

  /** A key of the map that starts with a side prefix belongs to an address
      rule of that side. */
  lemma PrefixedKeyIsAddressCheck(c: Check, side: Side, key: string)
    ensures CheckKey(c) == SidePrefix(side) + key ==>
              c.AddressCheck? && c.side == side && A.FieldName(c.field) == key
  {
    var p := SidePrefix(side);
    if c.AddressCheck? && c.side == side {
      assert CheckKey(c)[|p|..] == A.FieldName(c.field);
      assert (p + key)[|p|..] == key;
    } else {
      assert CheckKey(c)[0] != (p + key)[0];
    }
  }

  /** What each sub-form displays after validation: the names of its
      required fields that are blank, each with its message, and no other
      key. */
  lemma ValidationErrorsForAddress(d: ProductData, side: Side, key: string)
    ensures var shown := ErrorsFor(ValidationErrors(d), side);
            && (key in shown <==>
                  exists f :: f in RequiredAddressFields && A.FieldName(f) == key
                              && IsBlank(A.Get(AddressOn(d, side), f)))
            && (forall f :: A.FieldName(f) == key && key in shown ==>
                  shown[key] == Role(side) + " " + FieldLabel(f) + " is required")
  {
    var e := ValidationErrors(d);
    var p := SidePrefix(side);
    if p + key in e {
      ValidationKeysAreCheckKeys(d, p + key);
      var c :| c in Checks && Fails(d, c) && CheckKey(c) == p + key;
      PrefixedKeyIsAddressCheck(c, side, key);
      CheckMembership(c);
      forall f | A.FieldName(f) == key ensures e[p + key] == Role(side) + " " + FieldLabel(f) + " is required" {
        A.FieldNameInjective(f, c.field);
        AddressFieldMessage(d, side, f);
      }
    }
    if exists f :: f in RequiredAddressFields && A.FieldName(f) == key && IsBlank(A.Get(AddressOn(d, side), f)) {
      var f :| f in RequiredAddressFields && A.FieldName(f) == key && IsBlank(A.Get(AddressOn(d, side), f));
      AddressFieldReported(d, side, f);
    }
  }

  /** Every required field of an address holds more than white space. */
  predicate AddressComplete(a: A.AddressData) {
    forall f :: f in RequiredAddressFields ==> !IsBlank(A.Get(a, f))
  }

  /** The product part of a complete record. */
  predicate ProductFieldsComplete(d: ProductData) {
    && !IsBlank(d.name) && !IsBlank(d.orderNumber)
    && d.price > 0.0 && d.category != "" && !IsBlank(d.sku) && d.quantity >= 0.0
  }

  lemma ValidMeansComplete(d: ProductData)
    requires IsValid(d)
    ensures ProductFieldsComplete(d)
    ensures AddressComplete(d.fromAddress) && AddressComplete(d.toAddress)
  {
    ValidMeansProductComplete(d);
    ValidMeansAddressComplete(d, From);
    ValidMeansAddressComplete(d, To);
  }

  lemma ValidMeansProductComplete(d: ProductData)
    requires IsValid(d)
    ensures ProductFieldsComplete(d)
  {
    assert ValidationErrors(d) == map[];
    NameRequired(d);
    OrderNumberRequired(d);
    PricePositive(d);
    CategoryRequired(d);
    SkuRequired(d);
    QuantityNotNegative(d);
  }

  lemma ValidMeansAddressComplete(d: ProductData, side: Side)
    requires IsValid(d)
    ensures AddressComplete(AddressOn(d, side))
  {
    assert ValidationErrors(d) == map[];
    forall f | f in RequiredAddressFields ensures !IsBlank(A.Get(AddressOn(d, side), f)) {
      AddressFieldReported(d, side, f);
    }
  }

  lemma CompleteMeansValid(d: ProductData)
    requires ProductFieldsComplete(d)
    requires AddressComplete(d.fromAddress) && AddressComplete(d.toAddress)
    ensures IsValid(d)
  {
    forall c | c in Checks ensures !Fails(d, c) {
      CompleteRecordPasses(d, c);
    }
  }

  lemma CompleteRecordPasses(d: ProductData, c: Check)
    requires ProductFieldsComplete(d)
    requires AddressComplete(d.fromAddress) && AddressComplete(d.toAddress)
    requires c in Checks
    ensures !Fails(d, c)
  {
    CheckMembership(c);
    if c.AddressCheck? {
      assert AddressComplete(AddressOn(d, c.side));
    }
  }

  /** The verdict spelled out field by field. */
  lemma ValidIffComplete(d: ProductData)
    ensures IsValid(d) <==>
              ProductFieldsComplete(d) && AddressComplete(d.fromAddress) && AddressComplete(d.toAddress)
  {
    if IsValid(d) {
      ValidMeansComplete(d);
    }
    if ProductFieldsComplete(d) && AddressComplete(d.fromAddress) && AddressComplete(d.toAddress) {
      CompleteMeansValid(d);
    }
  }

  /** The default record cannot be submitted: among others its price is 0
      and its name is empty, while a zero quantity is accepted. */
  lemma DefaultIsInvalid()
    ensures !IsValid(DefaultProduct)
    ensures "price" in ValidationErrors(DefaultProduct) && "name" in ValidationErrors(DefaultProduct)
    ensures "quantity" !in ValidationErrors(DefaultProduct)
  {
    PricePositive(DefaultProduct);
    NameRequired(DefaultProduct);
    QuantityNotNegative(DefaultProduct);
    BlankIffAllWhitespace(DefaultProduct.name);
  }

  // ---------------------------------------------------------------------
  // Submission
  // ---------------------------------------------------------------------

  datatype SubmitOutcome = Rejected | Saved | SaveFailed

  datatype Submission = Submission(state: FormState, outcome: SubmitOutcome)

  /** The submit handler. Validation stores its map; a failing validation
      stops there with the record untouched. Otherwise the save runs
      (`saveSucceeds` is its outcome) and a successful save resets the
      record. */
  function HandleSubmit(s: FormState, saveSucceeds: bool): (r: Submission)
    ensures r.state.accordion == s.accordion
    ensures r.outcome == Rejected <==> !IsValid(s.data)
    ensures r.outcome == Rejected ==>
              r.state.data == s.data && r.state.errors == ValidationErrors(s.data) && r.state.errors != map[]
    ensures r.outcome == Saved <==> IsValid(s.data) && saveSucceeds
    ensures r.outcome == Saved ==> r.state.data == InitialState.data && r.state.errors == map[]
    ensures r.outcome == SaveFailed ==> r.state.data == s.data && r.state.errors == map[]
  {
    var v := ValidateForm(s.data);
    var validated := s.(errors := v.errors);
    if !v.ok then Submission(validated, Rejected)
    else if saveSucceeds then Submission(validated.(data := DefaultProduct), Saved)
    else Submission(validated, SaveFailed)
  }

  /** A rejected submission marks exactly the failing rules. */
  lemma RejectionNamesFailingRules(s: FormState, saveSucceeds: bool, c: Check)
    requires !IsValid(s.data)
    ensures var r := HandleSubmit(s, saveSucceeds);
            CheckKey(c) in r.state.errors <==> c in Checks && Fails(s.data, c)
  {
    ValidationErrorsSpec(s.data, c);
  }
}
