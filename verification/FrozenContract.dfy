/**
 The contract that the evaluator derives from a decision: its fields,
 and the evidence it froze, which preflight has seen.
 */
module FrozenContract {
  import opened Wrappers
  import opened Decisions
  import opened Evidence
  import opened ContractFields
  import opened EvidenceIntegrity
  import opened TreeReading
  import opened FieldPaths
  import opened DecisionReading
  import opened FulfillmentFields
  import opened Fulfillment
  import FulfillmentRecords
  import Preflight
  import PreflightGate

  // ----- The contract of a decision -----

  type Frozen = map<string, seq<EvidenceRef<string>>>

  /** A binding as the evaluator reads it. */
  datatype FieldBinding = FieldBinding(path: string, refs: seq<EvidenceRef<string>>)

  function FieldBindingOf(t: Tree): FieldBinding {
    FieldBinding(BoundPath(t), if RefsOf(t).Some? then RefsOf(t).value else [])
  }

  function FieldBindingsOf(items: seq<Tree>): (bindings: seq<FieldBinding>)
    ensures |bindings| == |items| && forall i :: 0 <= i < |items| ==> bindings[i] == FieldBindingOf(items[i])
  {
    seq(|items|, i requires 0 <= i < |items| => FieldBindingOf(items[i]))
  }

  /** The bindings by path; a later one replaces an earlier one. */
  function FrozenFrom(bindings: seq<FieldBinding>): Frozen {
    if bindings == [] then map[]
    else
      var last := bindings[|bindings| - 1];
      FrozenFrom(bindings[..|bindings| - 1])[last.path := last.refs]
  }

  function FrozenOf(t: Tree): Frozen {
    if ItemsAt(t, BINDINGS).Some? then FrozenFrom(FieldBindingsOf(ItemsAt(t, BINDINGS).value)) else map[]
  }

  const TARGET := [Attr(CHAPTER), Attr("target_chinese_chars")]

  /** `fields` lists the content's fields by the texts of their paths. */
  ghost predicate ListsByText(c: Content, fields: map<string, Fulfillment.Field>) {
    && (forall place | FieldAt(c, place).Some? ::
          TextOf(place) in fields && fields[TextOf(place)] == FieldAt(c, place).value)
    && (forall path <- fields :: exists place :: FieldAt(c, place).Some? && TextOf(place) == path)
  }

  /** `c` is what the evaluator derives from `d`. */
  ghost predicate DerivedFrom(c: Contract, d: NarrativeDecision) {
    && c.binding.contractId == d.contractId && c.binding.contractVersion == d.contractVersion
    && ListsByText(ContentOf(d.tree), c.fields) && c.frozen == FrozenOf(d.tree)
    && c.chapterId == d.chapterId && LeafAt(d.tree, TARGET) == Some(Int(c.targetChars))
  }

  lemma FieldsAreConcrete(c: Content, place: Place)
    requires FieldAt(c, place).Some?
    ensures IsConcrete(place)
  {
  }

  /** `byText` holds exactly the fields at the places `done`. */
  ghost predicate KeyedByText(byText: map<string, Fulfillment.Field>, fields: Fields, done: set<Place>) {
    && (forall place <- done :: place in fields && TextOf(place) in byText && byText[TextOf(place)] == fields[place])
    && forall path <- byText :: exists place <- done :: TextOf(place) == path
  }

  lemma KeyOneMore(c: Content, byText: map<string, Fulfillment.Field>, fields: Fields, done: set<Place>, place: Place)
    requires KeyedByText(byText, fields, done) && place in fields && place !in done
    requires forall q <- fields :: FieldAt(c, q).Some?
    ensures KeyedByText(byText[TextOf(place) := fields[place]], fields, done + {place})
  {
    forall q <- done
      ensures TextOf(q) != TextOf(place)
    {
      FieldsAreConcrete(c, q);
      FieldsAreConcrete(c, place);
      if TextOf(q) == TextOf(place) {
        TextInjective(q, place);
      }
    }
  }

  lemma KeyedIsListed(c: Content, byText: map<string, Fulfillment.Field>, fields: Fields, done: set<Place>)
    requires forall place :: FieldAt(c, place) == if place in fields then Some(fields[place]) else None
    requires KeyedByText(byText, fields, done) && done == fields.Keys
    ensures ListsByText(c, byText)
  {
  }

  /** The fields by the texts of their paths. */
  method ByText(c: Content, fields: Fields) returns (byText: map<string, Fulfillment.Field>)
    requires forall place :: FieldAt(c, place) == if place in fields then Some(fields[place]) else None
    ensures ListsByText(c, byText)
  {
    byText := map[];
    var todo := fields.Keys;
    ghost var done: set<Place> := {};
    while todo != {}
      invariant todo !! done && todo + done == fields.Keys && KeyedByText(byText, fields, done)
      decreases |todo|
    {
      var place :| place in todo;
      KeyOneMore(c, byText, fields, done, place);
      byText := byText[TextOf(place) := fields[place]];
      todo, done := todo - {place}, done + {place};
    }
    KeyedIsListed(c, byText, fields, done);
  }

  /** What the evaluator reads of a decision, unless something cannot be read. */
  method ContractOf(d: NarrativeDecision, digest: string) returns (r: Option<Contract>)
    ensures r.Some? ==> DerivedFrom(r.value, d) && r.value.binding.contentHash == digest
    ensures r.None? ==>
              || (exists f <- CAUSAL_FIELDS :: !Readable(ContentOf(d.tree), f))
                 || (exists f <- PLANS :: f !in ContentOf(d.tree).plans)
              || forall n :: LeafAt(d.tree, TARGET) != Some(Int(n))
  {
    var fields := ListFields(ContentOf(d.tree));
    if fields.None? {
      return None;
    }
    var byText := ByText(ContentOf(d.tree), fields.value);
    match LeafAt(d.tree, TARGET)
    case Some(Int(n)) =>
      var binding := FulfillmentRecords.Binding(d.contractId, d.contractVersion, digest);
      return Some(Contract(binding, byText, FrozenOf(d.tree), d.chapterId, n));
    case _ => return None;
  }

  // ----- Frozen evidence is what preflight saw -----

  lemma {:induction false} AllReferences(entries: seq<Entry>)
    requires forall e <- entries :: e.Bound?
    ensures PreflightGate.References(entries) == entries
  {
    if entries != [] {
      var n := |entries| - 1;
      assert entries[n] in entries;
      AllReferences(entries[..n]);
      assert entries == entries[..n] + [entries[n]];
    }
  }

  /** What preflight sees of a binding: all its references, at `place` exactly if its path is the text of `place`. */
  ghost predicate SeesBinding(b: Preflight.Binding, frozen: FieldBinding, place: Place) {
    (b.place == place <==> frozen.path == TextOf(place)) && PreflightGate.EntriesOf(b) == BoundEntries(frozen.refs)
  }

  lemma NamesPlace(path: string, place: Place)
    requires IsConcrete(place)
    ensures PlaceOf(path) == place <==> path == TextOf(place)
  {
    PlacesRoundTrip(place, path);
  }

  lemma EntriesSeen(t: Tree, d: NarrativeDecision)
    requires BindingValid(t, d)
    ensures PreflightGate.EntriesOf(BindingOf(t)) == BoundEntries(FieldBindingOf(t).refs)
  {
    var items, refs := ItemsAt(t, [Attr("evidence")]).value, RefsOf(t).value;
    assert Select(t, [Attr("evidence")]) == Some(Tuple(items));
    forall i | 0 <= i < |items|
      ensures EntryOf(items[i]) == BoundEntries(refs)[i]
    {
    }
    assert EntriesOf(items) == BoundEntries(refs);
    AllReferences(BoundEntries(refs));
  }

  lemma BindingSeen(t: Tree, d: NarrativeDecision, place: Place)
    requires BindingValid(t, d) && IsConcrete(place)
    ensures SeesBinding(BindingOf(t), FieldBindingOf(t), place)
  {
    NamesPlace(BoundPath(t), place);
    EntriesSeen(t, d);
  }

  ghost predicate DistinctPaths(bindings: seq<FieldBinding>) {
    forall i, j :: 0 <= i < j < |bindings| ==> bindings[i].path != bindings[j].path
  }

  lemma {:induction false} FrozenPaths(bindings: seq<FieldBinding>, path: string)
    ensures path in FrozenFrom(bindings) <==> exists b <- bindings :: b.path == path
  {
    if bindings != [] {
      var n := |bindings| - 1;
      FrozenPaths(bindings[..n], path);
      assert bindings == bindings[..n] + [bindings[n]];
    }
  }

  /** The entries at `place` are those of the references frozen under its text. */
  ghost predicate SeesFrozen(bindings: seq<Preflight.Binding>, frozen: Frozen, place: Place) {
    PreflightGate.EntriesAt(bindings, place) ==
    if TextOf(place) in frozen then BoundEntries(frozen[TextOf(place)]) else []
  }

  lemma SeesOneMore(bindings: seq<Preflight.Binding>, b: Preflight.Binding, frozen: Frozen, more: FieldBinding,
                    place: Place)
    requires SeesFrozen(bindings, frozen, place) && more.path !in frozen && SeesBinding(b, more, place)
    ensures SeesFrozen(bindings + [b], frozen[more.path := more.refs], place)
  {
    assert (bindings + [b])[..|bindings|] == bindings;
  }

  ghost predicate SeesBindings(bindings: seq<Preflight.Binding>, frozen: seq<FieldBinding>, place: Place) {
    |bindings| == |frozen| && forall i :: 0 <= i < |frozen| ==> SeesBinding(bindings[i], frozen[i], place)
  }

  lemma EarlierBindings(bindings: seq<Preflight.Binding>, frozen: seq<FieldBinding>, n: nat, place: Place)
    requires SeesBindings(bindings, frozen, place) && n <= |frozen|
    ensures SeesBindings(bindings[..n], frozen[..n], place)
  {
    forall i | 0 <= i < n
      ensures SeesBinding(bindings[..n][i], frozen[..n][i], place)
    {
      assert bindings[..n][i] == bindings[i] && frozen[..n][i] == frozen[i];
    }
  }

  lemma SplitLast<T>(s: seq<T>)
    requires s != []
    ensures s == s[..|s| - 1] + [s[|s| - 1]]
  {
  }

  lemma LastIsNew(frozen: seq<FieldBinding>)
    requires DistinctPaths(frozen) && frozen != []
    ensures var n := |frozen| - 1; DistinctPaths(frozen[..n]) && frozen[n].path !in FrozenFrom(frozen[..n])
  {
    FrozenPaths(frozen[..|frozen| - 1], frozen[|frozen| - 1].path);
  }

  /** The frozen evidence at a concrete place is exactly what preflight found there. */
  lemma {:induction false} FrozenIsSeen(bindings: seq<Preflight.Binding>, frozen: seq<FieldBinding>, place: Place)
    requires SeesBindings(bindings, frozen, place) && DistinctPaths(frozen)
    ensures SeesFrozen(bindings, FrozenFrom(frozen), place)
    decreases |frozen|
  {
    if frozen != [] {
      var n := |frozen| - 1;
      EarlierBindings(bindings, frozen, n, place);
      LastIsNew(frozen);
      FrozenIsSeen(bindings[..n], frozen[..n], place);
      SplitLast(bindings);
      SeesOneMore(bindings[..n], bindings[n], FrozenFrom(frozen[..n]), frozen[n], place);
    }
  }

  lemma EvidenceIsFrozen(d: NarrativeDecision, place: Place)
    requires BindingsValid(d) && IsConcrete(place)
    ensures SeesFrozen(BindingsOf(d.tree).value, FrozenOf(d.tree), place)
  {
    var items := ItemsAt(d.tree, BINDINGS).value;
    forall i | 0 <= i < |items|
      ensures SeesBinding(BindingList(items)[i], FieldBindingsOf(items)[i], place)
    {
      assert items[i] in items;
      BindingSeen(items[i], d, place);
    }
    FrozenIsSeen(BindingList(items), FieldBindingsOf(items), place);
  }
}
