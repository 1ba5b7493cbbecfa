/** The fields that a frozen contract has to be fulfilled in, and the evidence it froze, derived from the decision. */
module FulfillmentFields {
  import opened Wrappers
  import opened Decisions
  import opened ContractFields
  import Fulfillment

  /**
   The field at a place; an item and a reason keep their value as it
   is, a scalar field takes an enumeration's text.
   */
  function FieldAt(c: Content, place: Place): Option<Fulfillment.Field> {
    match place
    case At(f) =>
      if !IsArray(f) && ReadScalar(c, f).Some?
      then Some(Fulfillment.Field(EvidenceValue(ReadScalar(c, f).value), false, false)) else None
    case Item(f, i) =>
      if IsArray(f) && ReadArray(c, f).Some? && i < |ReadArray(c, f).value|
      then Some(ItemField(ReadArray(c, f).value[i])) else None
    case ReasonOf(f) =>
      if IsPlan(f) && f in c.plans && c.plans[f].values == [] then Some(ReasonField(c.plans[f].reason)) else None
    case _ => None
  }

  function ItemField(v: Scalar): Fulfillment.Field {
    Fulfillment.Field(EvidenceValue(v), false, v.Enum?)
  }

  function ReasonField(v: Scalar): Fulfillment.Field {
    Fulfillment.Field(EvidenceValue(v), true, v.Enum?)
  }

  type Fields = map<Place, Fulfillment.Field>

  /** `fields` holds exactly the fields at the given places. */
  ghost predicate Lists(c: Content, fields: Fields, among: iset<Place>) {
    && (forall place <- fields :: place in among && FieldAt(c, place) == Some(fields[place]))
    && (forall place <- among :: FieldAt(c, place).Some? ==> place in fields)
  }

  /** The items of an array field. */
  method ListItems(c: Content, f: FieldName, before: Fields, ghost fs: seq<FieldName>) returns (fields: Fields)
    requires IsArray(f) && ReadArray(c, f).Some? && Lists(c, before, PlacesOf(fs))
    ensures Lists(c, fields, PlacesOf(fs + [f]))
  {
    fields := before;
    var values := ReadArray(c, f).value;
    for i := 0 to |values|
      invariant Lists(c, fields, PlacesOf(fs) + ItemsOf(f, i))
    {
      fields := fields[Item(f, i) := ItemField(values[i])];
    }
    AllItemsListed(c, fields, fs, f);
  }

  lemma AllItemsListed(c: Content, fields: Fields, fs: seq<FieldName>, f: FieldName)
    requires IsArray(f) && ReadArray(c, f).Some?
    requires Lists(c, fields, PlacesOf(fs) + ItemsOf(f, |ReadArray(c, f).value|))
    ensures Lists(c, fields, PlacesOf(fs + [f]))
  {
  }

  lemma ScalarListed(c: Content, fields: Fields, fs: seq<FieldName>, f: FieldName)
    requires !IsArray(f) && ReadScalar(c, f).Some? && Lists(c, fields, PlacesOf(fs))
    ensures Lists(c, fields[At(f) := FieldAt(c, At(f)).value], PlacesOf(fs + [f]))
  {
  }

  predicate Readable(c: Content, f: FieldName) {
    if IsArray(f) then ReadArray(c, f).Some? else ReadScalar(c, f).Some?
  }

  method ListField(c: Content, f: FieldName, before: Fields, ghost fs: seq<FieldName>) returns (fields: Fields)
    requires Readable(c, f) && Lists(c, before, PlacesOf(fs))
    ensures Lists(c, fields, PlacesOf(fs + [f]))
  {
    if IsArray(f) {
      fields := ListItems(c, f, before, fs);
    } else {
      ScalarListed(c, before, fs, f);
      fields := before[At(f) := FieldAt(c, At(f)).value];
    }
  }

  /** Goes through the causal fields; one that cannot be read raises. */
  method ListCausalFields(c: Content) returns (r: Option<Fields>)
    ensures r.Some? <==> forall f <- CAUSAL_FIELDS :: Readable(c, f)
    ensures r.Some? ==> Lists(c, r.value, PlacesOf(CAUSAL_FIELDS))
  {
    var fields: Fields, names := map[], CAUSAL_FIELDS;
    for k := 0 to |names|
      invariant Lists(c, fields, PlacesOf(names[..k])) && forall i :: 0 <= i < k ==> Readable(c, names[i])
    {
      if !Readable(c, names[k]) {
        return None;
      }
      assert names[..k + 1] == names[..k] + [names[k]];
      fields := ListField(c, names[k], fields, names[..k]);
    }
    assert names[..|names|] == names;
    return Some(fields);
  }

  lemma ReasonListed(c: Content, fields: Fields, among: iset<Place>, plans: seq<FieldName>, f: FieldName)
    requires IsPlan(f) && f in c.plans && Lists(c, fields, among + ReasonsOf(plans))
    ensures c.plans[f].values != [] ==> Lists(c, fields, among + ReasonsOf(plans + [f]))
    ensures c.plans[f].values == [] ==>
              Lists(c, fields[ReasonOf(f) := ReasonField(c.plans[f].reason)], among + ReasonsOf(plans + [f]))
  {
  }

  /** Adds the reason of every empty plan. */
  method ListReasons(c: Content, before: Fields, ghost among: iset<Place>) returns (r: Option<Fields>)
    requires Lists(c, before, among)
    ensures r.Some? <==> forall f <- PLANS :: f in c.plans
    ensures r.Some? ==> Lists(c, r.value, among + ReasonsOf(PLANS))
  {
    var fields, plans := before, PLANS;
    for k := 0 to |plans|
      invariant Lists(c, fields, among + ReasonsOf(plans[..k])) && forall i :: 0 <= i < k ==> plans[i] in c.plans
    {
      var f := plans[k];
      EveryPlanListed(f);
      if f !in c.plans {
        return None;
      }
      assert plans[..k + 1] == plans[..k] + [f];
      ReasonListed(c, fields, among, plans[..k], f);
      if c.plans[f].values == [] {
        fields := fields[ReasonOf(f) := ReasonField(c.plans[f].reason)];
      }
    }
    assert plans[..|plans|] == plans;
    return Some(fields);
  }

  /** Everything that has to be fulfilled, unless some field of the contract cannot be read. */
  method ListFields(c: Content) returns (r: Option<Fields>)
    ensures r.Some? <==> (forall f <- CAUSAL_FIELDS :: Readable(c, f)) && forall f <- PLANS :: f in c.plans
    ensures r.Some? ==> forall place :: FieldAt(c, place) == if place in r.value then Some(r.value[place]) else None
  {
    var causal := ListCausalFields(c);
    if causal.None? {
      return None;
    }
    r := ListReasons(c, causal.value, PlacesOf(CAUSAL_FIELDS));
    if r.Some? {
      AllPlacesListed(c, r.value);
    }
  }

  lemma AllPlacesListed(c: Content, fields: Fields)
    requires Lists(c, fields, PlacesOf(CAUSAL_FIELDS) + ReasonsOf(PLANS))
    ensures forall place :: FieldAt(c, place) == if place in fields then Some(fields[place]) else None
  {
    forall place | FieldAt(c, place).Some?
      ensures place in fields
    {
      if place.ReasonOf? {
        EveryPlanListed(place.plan);
        assert place in ReasonsOf(PLANS);
      } else {
        EveryFieldListed(place.field);
        assert place in PlacesOf(CAUSAL_FIELDS);
      }
    }
  }
}
