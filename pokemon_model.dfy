/**
 * The UPDATE builder of server/models/pokemonModel.js (updatePokemon): the
 * SET clause lists the fields that were given, and the parameters follow
 * the placeholders.
 */
module PokemonModel {
  import opened Wrappers
  import opened Text

  /** A parameter bound to a placeholder. */
  datatype Param = Field(text: string) | Key(id: int)

  /** The one failure: neither field was given. */
  datatype UpdateError = NoFields

  datatype Update = Update(sql: string, values: seq<Param>)

  const Head := "UPDATE pokemons SET "
  const Tail := " WHERE id = " + "?"
  const NameSet := "name = " + "?"
  const TypeSet := "type = " + "?"

  /**
   * updatePokemon: `None` stands for an undefined field. The statement and
   * its parameters, or `NoFields` when neither name nor type is given.
   */
  method BuildUpdate(id: int, name: Option<string>, kind: Option<string>) returns (r: Result<Update, UpdateError>)
    ensures r.Err? <==> name.None? && kind.None?
    ensures r.Ok? ==> CountChar('?', r.value.sql) == |r.value.values|
    ensures r.Ok? && name.Some? && kind.Some? ==>
      r.value == Update(Head + NameSet + ", " + TypeSet + Tail, [Field(name.value), Field(kind.value), Key(id)])
    ensures r.Ok? && name.Some? && kind.None? ==>
      r.value == Update(Head + NameSet + Tail, [Field(name.value), Key(id)])
    ensures r.Ok? && name.None? && kind.Some? ==>
      r.value == Update(Head + TypeSet + Tail, [Field(kind.value), Key(id)])
  {
    var fields: seq<string> := [];
    var values: seq<Param> := [];
    if name.Some? {
      fields := fields + [NameSet];
      values := values + [Field(name.value)];
    }
    if kind.Some? {
      fields := fields + [TypeSet];
      values := values + [Field(kind.value)];
    }
    if |fields| == 0 {
      return Err(NoFields);
    }
    var sql := Head + Join(fields, ", ") + Tail;
    values := values + [Key(id)];
    PlaceholderCount(fields);
    return Ok(Update(sql, values));
  }

  /** The placeholders of the built statement: one per field and one for the id. */
  lemma PlaceholderCount(fields: seq<string>)
    requires fields == [NameSet] || fields == [TypeSet] || fields == [NameSet, TypeSet]
    ensures CountChar('?', Head + Join(fields, ", ") + Tail) == |fields| + 1
  {
    var list := Join(fields, ", ");
    assert CountChar('?', list) == |fields| by {
      SetCounts();
      if |fields| == 2 {
        CountCharAbsent('?', ", ");
        assert list == NameSet + ", " + TypeSet;
        CountCharAppend('?', NameSet + ", ", TypeSet);
        CountCharAppend('?', NameSet, ", ");
      }
    }
    HeadCount();
    TailCount();
    SumOfThree('?', Head, list, Tail);
  }

  lemma SumOfThree(c: char, a: string, b: string, d: string)
    ensures CountChar(c, a + b + d) == CountChar(c, a) + CountChar(c, b) + CountChar(c, d)
  {
    CountCharAppend(c, a + b, d);
    CountCharAppend(c, a, b);
  }

  /** The fixed text holds one placeholder, for the id. */
  lemma TailCount()
    ensures CountChar('?', Tail) == 1
  {
    OnePlaceholder(" WHERE id = ");
  }

  lemma HeadCount()
    ensures CountChar('?', Head) == 0
  {
    CountCharAbsent('?', Head);
  }

  /** Each assignment holds one placeholder. */
  lemma SetCounts()
    ensures CountChar('?', NameSet) == 1 && CountChar('?', TypeSet) == 1
  {
    OnePlaceholder("name = ");
    OnePlaceholder("type = ");
  }

  /** Text without a placeholder, then one. */
  lemma OnePlaceholder(a: string)
    requires '?' !in a
    ensures CountChar('?', a + "?") == 1
  {
    CountCharAbsent('?', a);
    CountCharAppend('?', a, "?");
  }
}
