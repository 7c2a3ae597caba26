/**
 The records the iNaturalist API hands back, as far as the identification-history
 retrieval reads them, and the outcome type used for every call that can fail.
 */
module Records {

  /** Why a call produced no value. `RequestFailed` stands for every way an HTTP
      call can go wrong before its `results` list is in hand (transport error,
      a body that is not JSON, a missing `results` key); a `KeyError` raised
      later, while the records of that list are read, is attributed to the same
      reply, which gives the same outcome: the call raises and nothing after it
      runs. `IndexError` is taking element 0 of an empty `results`. */
  datatype Error = RequestFailed | IndexError

  /** A Python call either returns a value or raises; raising is `Err`. */
  datatype Result<+T> = Ok(value: T) | Err(error: Error)

  /** The `taxon` object nested in identifications and similar-species records. */
  datatype TaxonRef = TaxonRef(id: int, name: string)

  /** One identification event; only the taxon it asserts is read. */
  datatype Identification = Identification(taxon: TaxonRef)

  /** One observation record of the `observations` endpoint, with its
      `identifications` list in the order the API gives it. */
  datatype Observation = Observation(identifications: seq<Identification>)

  /** One record of the `taxa` endpoint. */
  datatype TaxonRecord = TaxonRecord(id: int, name: string, observationsCount: int)

  /** One record of the `identifications/similar_species` endpoint. */
  datatype SimilarSpecies = SimilarSpecies(taxon: TaxonRef, count: int)

  /** A Python list comprehension `[f(x) for x in s]`. */
  function MapEach<A, B>(f: A -> B, s: seq<A>): seq<B>
  {
    seq(|s|, i requires 0 <= i < |s| => f(s[i]))
  }

  lemma MapEachAppend<A, B>(f: A -> B, s: seq<A>, t: seq<A>)
    ensures MapEach(f, s + t) == MapEach(f, s) + MapEach(f, t)
  {
    var lhs, rhs := MapEach(f, s + t), MapEach(f, s) + MapEach(f, t);
    assert |lhs| == |rhs|;
    forall i | 0 <= i < |lhs|
      ensures lhs[i] == rhs[i]
    {
      if i < |s| {
        assert (s + t)[i] == s[i];
      } else {
        assert (s + t)[i] == t[i - |s|];
      }
    }
  }

  /** The identification history of one observation: the taxon name of every
      identification, one per identification, in the order given, with no
      filtering and no removal of repeats. */
  function IdentificationNames(o: Observation): (names: seq<string>)
    ensures |names| == |o.identifications|
    ensures forall j :: 0 <= j < |names| ==> names[j] == o.identifications[j].taxon.name
  {
    MapEach((ident: Identification) => ident.taxon.name, o.identifications)
  }
}
