/**
 * The partial-update rule of `utils/macros.rs`: for each listed (model field, dto field) pair,
 * a dto value `Some(v)` overwrites the model field with `Set(wrap(v))`; `None` leaves it alone.
 */
module PartialUpdate {
  import opened Wrappers

  /** sea-orm's `ActiveValue`: a column to be written, one read back and not to be written, or absent. */
  datatype ActiveValue<T> = Set(value: T) | Unchanged(value: T) | NotSet

  function Identity<T>(x: T): T { x }

  /** One expanded `if let Some(value) = dto.f { model.f = Set(wrap(value)); }`. */
  function Assign<S, T>(current: ActiveValue<T>, source: Option<S>, wrap: S -> T): (r: ActiveValue<T>)
    ensures source.None? ==> r == current
    ensures source.Some? ==> r.Set? && r.value == wrap(source.value)
  {
    match source
    case Some(v) => Set(wrap(v))
    case None => current
  }

  /** The `apply_update_no_wrap` step: the same as the wrapping one with the identity wrapper. */
  function AssignNoWrap<T>(current: ActiveValue<T>, source: Option<T>): (r: ActiveValue<T>)
    ensures r == Assign(current, source, Identity)
  {
    if source.Some? then Set(source.value) else current
  }

  /** Repeating a step changes nothing more. */
  lemma AssignIdempotent<S, T>(current: ActiveValue<T>, source: Option<S>, wrap: S -> T)
    ensures Assign(Assign(current, source, wrap), source, wrap) == Assign(current, source, wrap)
  {
  }

  /**
   * The macro over any model: the model as a map from field names to values, one binding
   * `model_field : dto_field => wrap` per listed pair, the dto field already read out.
   */
  datatype Binding<K, !S, V> = Binding(field: K, source: Option<S>, wrap: S -> V)

  /** The model after the listed assignments, in order. */
  function Updated<K, S, V>(model: map<K, ActiveValue<V>>, bindings: seq<Binding<K, S, V>>): map<K, ActiveValue<V>>
    decreases |bindings|
  {
    if bindings == [] then model
    else
      var b := bindings[|bindings| - 1];
      var before := Updated(model, bindings[..|bindings| - 1]);
      if b.source.Some? then before[b.field := Set(b.wrap(b.source.value))] else before
  }

  /** One more binding at the end: its guarded assignment applied to what the others leave. */
  lemma UpdatedSnoc<K, S, V>(model: map<K, ActiveValue<V>>, bindings: seq<Binding<K, S, V>>, b: Binding<K, S, V>)
    ensures Updated(model, bindings + [b]) ==
            if b.source.Some? then Updated(model, bindings)[b.field := Set(b.wrap(b.source.value))] else Updated(model, bindings)
  {
    assert (bindings + [b])[..|bindings|] == bindings;
  }

  /** The same active value over another column type. */
  function Lift<T, V>(v: ActiveValue<T>, f: T -> V): (r: ActiveValue<V>)
    ensures r.NotSet? <==> v.NotSet?
    ensures r.Set? <==> v.Set?
    ensures !v.NotSet? ==> r.value == f(v.value)
  {
    match v
    case Set(x) => Set(f(x))
    case Unchanged(x) => Unchanged(f(x))
    case NotSet => NotSet
  }

  /** Lifting commutes with a guarded assignment whose wrapper is then composed with the lift. */
  lemma LiftAssign<S, T, V>(current: ActiveValue<T>, source: Option<S>, wrap: S -> T, f: T -> V)
    ensures Lift(Assign(current, source, wrap), f) == Assign(Lift(current, f), source, (s: S) => f(wrap(s)))
  {
  }

  /** The last binding of `field` that carries a value, if any. */
  function LastSome<K(==), S, V>(bindings: seq<Binding<K, S, V>>, field: K): (r: Option<nat>)
    ensures r.Some? ==> r.value < |bindings| && bindings[r.value].field == field && bindings[r.value].source.Some?
    ensures r.Some? ==> forall i :: r.value < i < |bindings| ==> bindings[i].field != field || bindings[i].source.None?
    ensures r.None? ==> forall i :: 0 <= i < |bindings| ==> bindings[i].field != field || bindings[i].source.None?
    decreases |bindings|
  {
    if bindings == [] then None
    else
      var b := bindings[|bindings| - 1];
      if b.field == field && b.source.Some? then Some(|bindings| - 1)
      else LastSome(bindings[..|bindings| - 1], field)
  }

  /** Field by field: the last listed `Some` wins; a field no binding fills keeps its value. */
  lemma {:induction false} UpdatedField<K, S, V>(model: map<K, ActiveValue<V>>, bindings: seq<Binding<K, S, V>>, field: K)
    ensures field in Updated(model, bindings) <==> field in model || LastSome(bindings, field).Some?
    ensures LastSome(bindings, field).Some? ==>
      var b := bindings[LastSome(bindings, field).value];
      Updated(model, bindings)[field] == Set(b.wrap(b.source.value))
    ensures LastSome(bindings, field).None? && field in model ==> Updated(model, bindings)[field] == model[field]
    decreases |bindings|
  {
    if bindings != [] {
      UpdatedField(model, bindings[..|bindings| - 1], field);
    }
  }

  /**
   * When every binding names its own field of the model, each field ends as its binding's guarded
   * assignment leaves it, whatever the order, and the model keeps its fields.
   */
  lemma UpdatedDistinct<K, S, V>(model: map<K, ActiveValue<V>>, bindings: seq<Binding<K, S, V>>)
    requires forall i :: 0 <= i < |bindings| ==> bindings[i].field in model
    requires forall i, j :: 0 <= i < j < |bindings| ==> bindings[i].field != bindings[j].field
    ensures Updated(model, bindings).Keys == model.Keys
    ensures forall i :: 0 <= i < |bindings| ==>
      bindings[i].field in Updated(model, bindings) &&
      Updated(model, bindings)[bindings[i].field] == Assign(model[bindings[i].field], bindings[i].source, bindings[i].wrap)
  {
    forall i | 0 <= i < |bindings|
      ensures bindings[i].field in Updated(model, bindings) &&
              Updated(model, bindings)[bindings[i].field] == Assign(model[bindings[i].field], bindings[i].source, bindings[i].wrap)
    {
      UpdatedAt(model, bindings, i);
    }
    SameKeys(model, bindings, Updated(model, bindings));
  }

  /** The same, for the field of one binding. */
  lemma UpdatedAt<K, S, V>(model: map<K, ActiveValue<V>>, bindings: seq<Binding<K, S, V>>, i: nat)
    requires i < |bindings| && bindings[i].field in model
    requires forall j :: 0 <= j < |bindings| && j != i ==> bindings[j].field != bindings[i].field
    ensures bindings[i].field in Updated(model, bindings)
    ensures Updated(model, bindings)[bindings[i].field] == Assign(model[bindings[i].field], bindings[i].source, bindings[i].wrap)
  {
    UpdatedField(model, bindings, bindings[i].field);
  }

  lemma SameKeys<K, S, V>(model: map<K, ActiveValue<V>>, bindings: seq<Binding<K, S, V>>, updated: map<K, ActiveValue<V>>)
    requires forall i :: 0 <= i < |bindings| ==> bindings[i].field in model
    requires updated == Updated(model, bindings)
    ensures updated.Keys == model.Keys
  {
    forall field: K
      ensures field in updated <==> field in model
    {
      UpdatedField(model, bindings, field);
    }
  }

  /** Fields not named by any binding are never touched. */
  lemma UnlistedFieldsUntouched<K, S, V>(model: map<K, ActiveValue<V>>, bindings: seq<Binding<K, S, V>>, field: K)
    requires field in model
    requires forall i :: 0 <= i < |bindings| ==> bindings[i].field != field
    ensures field in Updated(model, bindings) && Updated(model, bindings)[field] == model[field]
  {
    UpdatedField(model, bindings, field);
  }

  /** A dto whose fields are all `None` leaves the model as it was. */
  lemma {:induction false} AllNoneIsIdentity<K, S, V>(model: map<K, ActiveValue<V>>, bindings: seq<Binding<K, S, V>>)
    requires forall i :: 0 <= i < |bindings| ==> bindings[i].source.None?
    ensures Updated(model, bindings) == model
    decreases |bindings|
  {
    if bindings != [] {
      AllNoneIsIdentity(model, bindings[..|bindings| - 1]);
    }
  }

  /** Applying the same dto twice gives what applying it once gives. */
  lemma UpdatedIdempotent<K, S, V>(model: map<K, ActiveValue<V>>, bindings: seq<Binding<K, S, V>>)
    ensures Updated(Updated(model, bindings), bindings) == Updated(model, bindings)
  {
    UpdatedTwice(model, bindings, Updated(model, bindings), Updated(Updated(model, bindings), bindings));
  }

  lemma UpdatedTwice<K, S, V>(model: map<K, ActiveValue<V>>, bindings: seq<Binding<K, S, V>>,
                              once: map<K, ActiveValue<V>>, twice: map<K, ActiveValue<V>>)
    requires once == Updated(model, bindings) && twice == Updated(once, bindings)
    ensures twice == once
  {
    forall field: K
      ensures field in twice <==> field in once
      ensures field in once ==> twice[field] == once[field]
    {
      UpdatedField(model, bindings, field);
      UpdatedField(once, bindings, field);
    }
  }

  /** The expansion of `apply_update_wrap!`: one guarded assignment per binding, in order. */
  method ApplyUpdateWrap<K, S, V>(model: map<K, ActiveValue<V>>, bindings: seq<Binding<K, S, V>>)
    returns (m: map<K, ActiveValue<V>>)
    ensures m == Updated(model, bindings)
  {
    m := model;
    var i := 0;
    while i < |bindings|
      invariant 0 <= i <= |bindings|
      invariant m == Updated(model, bindings[..i])
    {
      var b := bindings[i];
      assert bindings[..i + 1][..i] == bindings[..i];
      if b.source.Some? {
        m := m[b.field := Set(b.wrap(b.source.value))];
      }
      i := i + 1;
    }
    assert bindings[..i] == bindings;
  }

  /** `apply_update_no_wrap!`: the wrapping form with every wrapper the identity. */
  method ApplyUpdateNoWrap<K, V>(model: map<K, ActiveValue<V>>, fields: seq<K>, sources: seq<Option<V>>)
    returns (m: map<K, ActiveValue<V>>)
    requires |fields| == |sources|
    ensures m == Updated(model, seq(|fields|, i requires 0 <= i < |fields| => Binding(fields[i], sources[i], Identity)))
  {
    var bindings := seq(|fields|, i requires 0 <= i < |fields| => Binding(fields[i], sources[i], Identity));
    m := model;
    var i := 0;
    while i < |fields|
      invariant 0 <= i <= |fields|
      invariant m == Updated(model, bindings[..i])
    {
      assert bindings[..i + 1][..i] == bindings[..i];
      if sources[i].Some? {
        m := m[fields[i] := Set(sources[i].value)];
      }
      i := i + 1;
    }
    assert bindings[..i] == bindings;
  }
}
