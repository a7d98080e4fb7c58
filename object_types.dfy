/** The records the wizard passes around: object types, parameters (technical-economic
    indicators, ТЭП), catalog objects and sub-objects. */
module ObjectTypes {
  import opened Wrappers
  import opened Numbers
  import opened Seqs

  /** A catalog category (`title` is the source's `label`, a reserved word here). `count` is shown to the user and is not derived from the catalog. */
  datatype ObjectType = ObjectType(id: string, title: string, count: int)

  /** A parameter value is a JavaScript `string | number`. */
  datatype Value = Num(number: Decimal) | Text(text: string)
  {
    /** `value.toString()`. Text is itself; a number prints as text that `parseFloat`
        reads back as that number. */
    function ToString(): (r: string)
      ensures Text? ==> r == text
      ensures Num? ==> ParseFloat(r) == Some(number.Value())
    {
      match this
      case Num(d) => ParseFormatRoundTrip(d); FormatDecimal(d)
      case Text(s) => s
    }
  }

  /** A parameter definition (its `value` is the reference value), or, inside an object,
      one of its characteristics (its `value` is the object's own value). */
  datatype Parameter = Parameter(id: string, name: string, value: Value)

  /** A catalog object; `characteristics` is optional, as in the source record. */
  datatype SystemObject = SystemObject(id: string, name: string, objectType: string, characteristics: Option<seq<Parameter>>)

  /** A component that can be added to the new object, with the user's choice and quantity. */
  datatype SubObject = SubObject(id: string, name: string, kind: string, characteristics: seq<Parameter>, count: int, selected: bool)

  /** The identifiers of a list of parameters. */
  function Ids(ps: seq<Parameter>): set<string>
  {
    set i | 0 <= i < |ps| :: ps[i].id
  }

  /** Appending a parameter adds its identifier. */
  lemma IdsAppend(ps: seq<Parameter>, p: Parameter)
    ensures Ids(ps + [p]) == Ids(ps) + {p.id}
  {
    assert forall i | 0 <= i < |ps| :: (ps + [p])[i] == ps[i];
    assert (ps + [p])[|ps|] == p;
  }

  /** No two parameters of the list share an identifier. */
  predicate DistinctIds(ps: seq<Parameter>)
  {
    forall i, j | 0 <= i < j < |ps| :: ps[i].id != ps[j].id
  }

  /** `ps.filter(p => p.id !== id)`: the list without the parameters carrying `id`. */
  function RemoveById(ps: seq<Parameter>, id: string): (r: seq<Parameter>)
    ensures IsSubsequence(r, ps)
    ensures forall p :: p in r <==> p in ps && p.id != id
    ensures Ids(r) == Ids(ps) - {id}
    ensures forall p {:trigger multiset(r)[p]} :: multiset(r)[p] == if p.id != id then multiset(ps)[p] else 0
  {
    var r := Filter(ps, (p: Parameter) => p.id != id);
    IdsOfRemaining(ps, id, r);
    r
  }

  /** A list holding exactly the parameters of `ps` without `id` has the identifiers of
      `ps` without `id`. */
  lemma IdsOfRemaining(ps: seq<Parameter>, id: string, r: seq<Parameter>)
    requires forall i | 0 <= i < |r| :: r[i] in ps && r[i].id != id
    requires forall i | 0 <= i < |ps| :: ps[i].id != id ==> ps[i] in r
    ensures Ids(r) == Ids(ps) - {id}
  {
    assert forall x | x in Ids(ps) - {id} :: x in Ids(r) by {
      forall x | x in Ids(ps) - {id} ensures x in Ids(r) {
        var i :| 0 <= i < |ps| && ps[i].id == x;
        var j :| 0 <= j < |r| && r[j] == ps[i];
      }
    }
  }
}
