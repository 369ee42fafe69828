/** The fixed geography of galaxy 555: systems 555:111 to 555:999, nine planets each,
    and the text codes both the server and the clients build for them. */
module Galaxy {

  import opened Wrappers
  import opened Text

  /** Lowest and highest system number. */
  const First: nat := 111
  const Last: nat := 999
  /** Planets per system, numbered 1 to 9. */
  const PlanetsPerSystem: nat := 9

  /** `555:${i}`. */
  function SystemCode(i: nat): string {
    "555:" + NatToString(i)
  }

  /** `555:${i}:${k}`. */
  function PlanetCode(i: nat, k: nat): string {
    SystemCode(i) + ":" + NatToString(k)
  }

  /** A system code splits on ':' into "555" and the system number. */
  lemma SystemCodeFields(i: nat)
    ensures Split(SystemCode(i), ':') == ["555", NatToString(i)]
    ensures Field(SystemCode(i), ':', 1) == Some(NatToString(i))
  {
    assert SystemCode(i) == "555" + [':'] + NatToString(i);
    TwoFields("555", ':', NatToString(i));
  }

  /** A planet code splits on ':' into "555", the system number and the planet number. */
  lemma PlanetCodeFields(i: nat, k: nat)
    ensures Split(PlanetCode(i, k), ':') == ["555", NatToString(i), NatToString(k)]
  {
    var rest := NatToString(i) + [':'] + NatToString(k);
    assert PlanetCode(i, k) == "555" + [':'] + rest;
    SplitAtFirst("555", ':', rest);
    TwoFields(NatToString(i), ':', NatToString(k));
  }

  lemma SystemCodeInjective(i: nat, j: nat)
    ensures SystemCode(i) == SystemCode(j) ==> i == j
  {
    SystemCodeFields(i);
    SystemCodeFields(j);
    NatToStringInjective(i, j);
  }

  lemma PlanetCodeInjective(i: nat, k: nat, j: nat, l: nat)
    ensures PlanetCode(i, k) == PlanetCode(j, l) ==> i == j && k == l
  {
    PlanetCodeFields(i, k);
    PlanetCodeFields(j, l);
    NatToStringInjective(i, j);
    NatToStringInjective(k, l);
  }

}
