/** Identity resolution: how Subbus turns an arbitrary subscriber identifier
    (any Swift value) into a comparable identity.

    Swift's runtime reflection is taken as input: a value arrives already
    classified by its Mirror display style, together with its type name and
    its textual rendering ("\(value)"); class instances arrive with their
    address. */
module Identifiers {
  import opened Wrappers

  type Address = nat

  /** Mirror display styles other than `.class` and `.optional`. */
  datatype DisplayStyle =
    | StructStyle | EnumStyle | TupleStyle | CollectionStyle | DictionaryStyle | SetStyle
    | NoStyle                       // primitives such as Int and String have no display style
    | OtherStyle(name: string)      // any style Subbus does not recognise

  /** A Swift value used as a subscriber identifier or as a scope. */
  datatype Value =
    | Optional(wrappedType: string, payload: Option<Value>)   // an Optional<wrappedType>
    | Object(typeName: string, addr: Address)                  // a class instance
    | Plain(style: DisplayStyle, typeName: string, text: string)

  /** Recognised non-class, non-optional styles: replaced by their string key. */
  predicate IsValueStyle(style: DisplayStyle) {
    !style.OtherStyle?
  }

  /** `type(of: id)` as text. */
  function TypeName(v: Value): string {
    match v
    case Optional(w, _) => "Optional<" + w + ">"
    case Object(t, _) => t
    case Plain(_, t, _) => t
  }

  function HexDigit(d: nat): char
    requires d < 16
  {
    if d < 10 then (48 + d) as char else (87 + d) as char
  }

  /** Lower-case hexadecimal digits of `n`, most significant first. */
  function HexDigits(n: nat): (s: string)
    ensures |s| >= 1
    ensures n >= 16 ==> |s| >= 2
    decreases n
  {
    if n < 16 then [HexDigit(n)] else HexDigits(n / 16) + [HexDigit(n % 16)]
  }

  /** The rendering of an unretained pointer to a class instance. */
  function AddressText(a: Address): string {
    "0x" + HexDigits(a)
  }

  /** The text `stringFor` builds: the address for class instances, the
      interpolated value otherwise. The text given for an optional is a
      placeholder, not Swift's own rendering (which quotes strings and
      differs again for class instances): no modelled operation reaches it,
      since `parseId` unwraps optionals first and scope keys refuse them. */
  function Rendering(v: Value): string {
    match v
    case Optional(_, None) => "nil"
    case Optional(_, Some(x)) => "Optional(" + Rendering(x) + ")"
    case Object(_, a) => AddressText(a)
    case Plain(_, _, text) => text
  }

  /** `Subbus.stringFor(id:)`: the key "<type>-<rendering>", or nothing when the
      rendering is empty or is the word "nil". */
  function StringFor(v: Value): (r: Option<string>)
    ensures r.None? <==> Rendering(v) == "" || Rendering(v) == "nil"
    ensures r.Some? ==> |r.value| == |TypeName(v)| + 1 + |Rendering(v)|
    ensures r.Some? ==> r.value == TypeName(v) + "-" + Rendering(v)
  {
    var text := Rendering(v);
    if text == "" then None
    else if text == "nil" then None
    else Some(TypeName(v) + "-" + text)
  }

  lemma HexDigitInjective(d: nat, e: nat)
    requires d < 16 && e < 16
    ensures HexDigit(d) == HexDigit(e) ==> d == e
  {
  }

  lemma {:induction false} HexDigitsInjective(m: nat, n: nat)
    ensures HexDigits(m) == HexDigits(n) ==> m == n
    decreases m
  {
    if HexDigits(m) == HexDigits(n) {
      if m < 16 && n < 16 {
        HexDigitInjective(m, n);
      } else if m >= 16 && n >= 16 {
        var sm, sn := HexDigits(m), HexDigits(n);
        assert sm[|sm| - 1] == sn[|sn| - 1];
        HexDigitInjective(m % 16, n % 16);
        assert sm[..|sm| - 1] == HexDigits(m / 16);
        assert sn[..|sn| - 1] == HexDigits(n / 16);
        HexDigitsInjective(m / 16, n / 16);
      }
    }
  }

  lemma {:induction false} HexDigitsHaveNoDash(n: nat)
    ensures '-' !in HexDigits(n)
    decreases n
  {
    if n >= 16 {
      HexDigitsHaveNoDash(n / 16);
    }
  }

  lemma AddressTextHasNoDash(a: Address)
    ensures '-' !in AddressText(a)
  {
    HexDigitsHaveNoDash(a);
  }

  /** The characters of a key "<type>-<rendering>", by position. */
  lemma KeyCharAt(t: string, r: string, i: nat)
    requires i < |t| + 1 + |r|
    ensures (t + "-" + r)[i] == if i < |t| then t[i] else if i == |t| then '-' else r[i - |t| - 1]
  {
  }

  /** Splitting a key at a known type-name length recovers both halves. */
  lemma KeyParts(t: string, r: string, u: string, q: string)
    requires t + "-" + r == u + "-" + q
    requires |t| == |u|
    ensures t == u && r == q
  {
    var k := t + "-" + r;
    assert t == k[..|t|];
    assert u == (u + "-" + q)[..|u|];
    assert r == k[|t| + 1..];
    assert q == (u + "-" + q)[|u| + 1..];
  }

  /** Equal renderings under different type-name texts (the unqualified
      `type(of:)` text) never share a key. */
  lemma StringForSeparatesTypes(v: Value, w: Value)
    requires Rendering(v) == Rendering(w)
    requires StringFor(v).Some? && StringFor(v) == StringFor(w)
    ensures TypeName(v) == TypeName(w)
  {
    KeyParts(TypeName(v), Rendering(v), TypeName(w), Rendering(w));
  }

  /** For type names without a dash, the key determines type and rendering. */
  lemma StringForInjective(v: Value, w: Value)
    requires '-' !in TypeName(v) && '-' !in TypeName(w)
    requires StringFor(v).Some? && StringFor(v) == StringFor(w)
    ensures TypeName(v) == TypeName(w) && Rendering(v) == Rendering(w)
  {
    var t, u := TypeName(v), TypeName(w);
    var k := StringFor(v).value;
    assert k == t + "-" + Rendering(v) && k == u + "-" + Rendering(w);
    // the first dash of the key ends the type name
    var i := if |t| <= |u| then |t| else |u|;
    KeyCharAt(t, Rendering(v), i);
    KeyCharAt(u, Rendering(w), i);
    KeyParts(t, Rendering(v), u, Rendering(w));
  }

  /** Class instances always render, and two of them share a key only when
      they have the same type and the same address: reference identity. */
  lemma ObjectKeysAreReferenceIdentity(t: string, a: Address, u: string, b: Address)
    ensures StringFor(Object(t, a)).Some?
    ensures StringFor(Object(t, a)) == StringFor(Object(u, b)) ==> t == u && a == b
  {
    var ra, rb := AddressText(a), AddressText(b);
    assert ra[0] == '0' && rb[0] == '0';
    if StringFor(Object(t, a)) == StringFor(Object(u, b)) {
      var k := t + "-" + ra;
      assert k == u + "-" + rb;
      AddressTextHasNoDash(a);
      AddressTextHasNoDash(b);
      // the last dash of the key ends the type name
      var i := if |t| <= |u| then |u| else |t|;
      KeyCharAt(t, ra, i);
      KeyCharAt(u, rb, i);
      KeyParts(t, ra, u, rb);
      assert HexDigits(a) == ra[2..] && HexDigits(b) == rb[2..];
      HexDigitsInjective(a, b);
    }
  }

  /** A resolved identity. Class instances keep reference identity (their
      address); every other accepted identifier is replaced by its
      `stringFor` key, which is fixed once computed. */
  datatype Identity = Ref(addr: Address) | Key(key: string)

  datatype IdError =
    | NilIdentifier                  // the optional held no value
    | NoRendering                    // `stringFor` refused the value
    | Unrecognizable(style: string)  // a display style Subbus does not handle

  /** The value an identifier holds once every optional layer is removed,
      or nothing when some layer is empty. */
  function Unwrapped(v: Value): (r: Option<Value>)
    ensures r.Some? ==> !r.value.Optional?
  {
    match v
    case Optional(_, None) => None
    case Optional(_, Some(x)) => Unwrapped(x)
    case _ => Some(v)
  }

  /** `Subscription.parseId`: unwraps optionals recursively, replaces value
      identifiers by their key, keeps class instances by reference and
      rejects anything else. */
  function ParseId(v: Value): (r: Result<Identity, IdError>)
    ensures r == Err(NilIdentifier) <==> Unwrapped(v).None?
    ensures r.Ok? && r.value.Ref? <==> Unwrapped(v).Some? && Unwrapped(v).value.Object?
    ensures r.Ok? && r.value.Ref? ==> r.value.addr == Unwrapped(v).value.addr
    ensures r.Ok? && r.value.Key? ==>
              Unwrapped(v).Some? && Unwrapped(v).value.Plain? &&
              StringFor(Unwrapped(v).value) == Some(r.value.key)
    ensures r == Err(NoRendering) <==>
              Unwrapped(v).Some? && Unwrapped(v).value.Plain? &&
              IsValueStyle(Unwrapped(v).value.style) && StringFor(Unwrapped(v).value).None?
    ensures r.Err? && r.error.Unrecognizable? <==>
              Unwrapped(v).Some? && Unwrapped(v).value.Plain? && !IsValueStyle(Unwrapped(v).value.style)
  {
    match v
    case Optional(_, None) => Err(NilIdentifier)
    case Optional(_, Some(x)) => ParseId(x)
    case Object(_, a) => Ok(Ref(a))
    case Plain(style, _, _) =>
      if !IsValueStyle(style) then Err(Unrecognizable(style.name))
      else match StringFor(v)
        case None => Err(NoRendering)
        case Some(k) => Ok(Key(k))
  }

  /** What a stored weak identifier points to: nothing once the instance it
      referred to has been reclaimed (its address is in `dead`). String keys
      are never reclaimed. */
  function WeakTarget(id: Identity, dead: set<Address>): Option<Identity> {
    if id.Ref? && id.addr in dead then None else Some(id)
  }

  predicate Alive(id: Identity, dead: set<Address>) {
    WeakTarget(id, dead).Some?
  }

  /** The comparison inside `matches(identifier:)`: two string keys compare
      as strings, two live objects by address, and otherwise the two
      descriptions are compared, which agree only when the stored side is
      reclaimed and the other side describes as a bare nil. */
  function IdentifierMatch(mine: Option<Identity>, theirs: Option<Identity>, theirsIsNil: bool): bool {
    if mine.Some? && mine.value.Key? && theirs.Some? && theirs.value.Key? then
      mine.value.key == theirs.value.key
    else if mine.Some? && theirs.Some? then
      mine.value.Ref? && theirs.value.Ref? && mine.value.addr == theirs.value.addr
    else
      mine.None? && theirsIsNil
  }

  /** `matches(identifier:)` against an identifier value supplied by a
      caller. The generic argument reaches the `Any?` parameter wrapped in
      one more optional, so its description is never a bare nil. */
  function MatchesValue(stored: Identity, other: Value, dead: set<Address>): bool {
    IdentifierMatch(WeakTarget(stored, dead), ParseId(other).ToOption(), false)
  }

  /** `matches(identifier:)` against another subscription's weak identifier. */
  function MatchesIdentity(stored: Identity, other: Identity, dead: set<Address>): bool {
    var theirs := WeakTarget(other, dead);
    IdentifierMatch(WeakTarget(stored, dead), theirs, theirs.None?)
  }

  /** A live stored identity matches exactly the values that resolve to it,
      so a value identifier changed after subscribing no longer matches; a
      reclaimed one matches no value a caller supplies. */
  lemma MatchesValueIff(stored: Identity, other: Value, dead: set<Address>)
    ensures Alive(stored, dead) ==> (MatchesValue(stored, other, dead) <==> ParseId(other) == Ok(stored))
    ensures !Alive(stored, dead) ==> !MatchesValue(stored, other, dead)
  {
  }

  /** Identity matching between subscriptions is an equivalence relation. */
  lemma MatchesIdentityIsEquivalence(a: Identity, b: Identity, c: Identity, dead: set<Address>)
    ensures MatchesIdentity(a, a, dead)
    ensures MatchesIdentity(a, b, dead) ==> MatchesIdentity(b, a, dead)
    ensures MatchesIdentity(a, b, dead) && MatchesIdentity(b, c, dead) ==> MatchesIdentity(a, c, dead)
  {
  }

  /** Between live identities the match is plain equality. */
  lemma MatchesIdentityOfLive(a: Identity, b: Identity, dead: set<Address>)
    requires Alive(a, dead) && Alive(b, dead)
    ensures MatchesIdentity(a, b, dead) <==> a == b
  {
  }
}
