/** The lifecycle cost formula of BridgeCostApp.calculate_costs (gui.py):
    eight cost components of one material, from the four user inputs and
    the material's rates. Rates are exact reals standing in for floats. */
module Costs {
  import opened Database

  /** The four parsed inputs: span length and width in metres, traffic in
      vehicles per day, design life in years. */
  datatype CostInputs = CostInputs(spanLength: int, width: int, trafficVolume: int, designLife: int)

  /** Row labels of the result table; a cost vector lists its entries in this order. */
  const CostComponents: seq<string> := [
    "Construction Cost", "Maintenance Cost", "Repair Cost", "Demolition Cost",
    "Environmental Cost", "Social Cost", "User Cost", "Total Cost"]

  const Construction: nat := 0
  const Maintenance: nat := 1
  const Repair: nat := 2
  const Demolition: nat := 3
  const Environmental: nat := 4
  const Social: nat := 5
  const User: nat := 6
  const Total: nat := 7

  function Area(inp: CostInputs): int
  {
    inp.spanLength * inp.width
  }

  /** The cost vector of one material, one entry per label of CostComponents. */
  function CostVector(inp: CostInputs, r: RateRecord): (v: seq<real>)
    ensures |v| == |CostComponents|
  {
    var area := Area(inp) as real;
    var life := inp.designLife as real;
    var traffic := inp.trafficVolume as real;
    var construction := area * r.baseRate;
    var maintenance := area * r.maintenanceRate * life;
    var repair := area * r.repairRate;
    var demolition := area * r.demolitionRate;
    var environmental := area * r.environmentalFactor;
    var social := traffic * r.socialFactor * life;
    var user := traffic * r.delayFactor * life;
    var total := construction + maintenance + repair + demolition + environmental + social + user;
    [construction, maintenance, repair, demolition, environmental, social, user, total]
  }

  function Sum(s: seq<real>): real
  {
    if s == [] then 0.0 else s[0] + Sum(s[1..])
  }

  lemma SumStep(s: seq<real>, k: nat)
    requires k < |s|
    ensures Sum(s[k..]) == s[k] + Sum(s[k + 1..])
  {
    assert s[k..][1..] == s[k + 1..];
  }

  /** The total is the sum of the seven other components, with no hidden term. */
  lemma TotalIsSum(inp: CostInputs, r: RateRecord)
    ensures CostVector(inp, r)[Total] == Sum(CostVector(inp, r)[..Total])
  {
    var s := CostVector(inp, r)[..Total];
    SumStep(s, 6);
    SumStep(s, 5);
    SumStep(s, 4);
    SumStep(s, 3);
    SumStep(s, 2);
    SumStep(s, 1);
    SumStep(s, 0);
    assert s[0..] == s;
  }

  /** Components that depend on the geometry, the traffic and the design life. */
  ghost predicate AreaOnly(i: nat) { i == Construction || i == Repair || i == Demolition || i == Environmental }
  ghost predicate Recurring(i: nat) { i == Maintenance || i == Social || i == User }

  /** A zero design life zeroes maintenance, social and user cost and leaves
      the four one-off costs as they are for any other design life. */
  lemma ZeroDesignLife(inp: CostInputs, r: RateRecord, life: int)
    requires inp.designLife == 0
    ensures forall i :: 0 <= i < Total && Recurring(i) ==> CostVector(inp, r)[i] == 0.0
    ensures forall i :: 0 <= i < Total && AreaOnly(i) ==>
              CostVector(inp, r)[i] == CostVector(inp.(designLife := life), r)[i]
  {
  }

  /** Zero traffic zeroes social and user cost and nothing else: the five
      other components are those of any other traffic volume. */
  lemma ZeroTraffic(inp: CostInputs, r: RateRecord, traffic: int)
    requires inp.trafficVolume == 0
    ensures CostVector(inp, r)[Social] == 0.0 && CostVector(inp, r)[User] == 0.0
    ensures forall i :: 0 <= i < Social ==>
              CostVector(inp, r)[i] == CostVector(inp.(trafficVolume := traffic), r)[i]
  {
  }

  /** Span length and width enter only through their product, the deck area. */
  lemma AreaDeterminesOneOffCosts(inp1: CostInputs, inp2: CostInputs, r: RateRecord)
    requires Area(inp1) == Area(inp2) && inp1.designLife == inp2.designLife
    ensures forall i :: 0 <= i < Social ==> CostVector(inp1, r)[i] == CostVector(inp2, r)[i]
  {
  }

  lemma MulNonNegative(a: real, b: real)
    requires a >= 0.0 && b >= 0.0
    ensures a * b >= 0.0
  {
  }

  /** With non-negative inputs and rates no component is negative. */
  lemma NonNegativeCosts(inp: CostInputs, r: RateRecord)
    requires inp.spanLength >= 0 && inp.width >= 0 && inp.trafficVolume >= 0 && inp.designLife >= 0
    requires r.baseRate >= 0.0 && r.maintenanceRate >= 0.0 && r.repairRate >= 0.0
    requires r.demolitionRate >= 0.0 && r.environmentalFactor >= 0.0
    requires r.socialFactor >= 0.0 && r.delayFactor >= 0.0
    ensures forall i :: 0 <= i < |CostComponents| ==> CostVector(inp, r)[i] >= 0.0
  {
    var area := Area(inp) as real;
    var life := inp.designLife as real;
    var traffic := inp.trafficVolume as real;
    assert Area(inp) >= 0 by {
      MulNonNegative(inp.spanLength as real, inp.width as real);
    }
    MulNonNegative(area, r.baseRate);
    MulNonNegative(area, r.maintenanceRate);
    MulNonNegative(area * r.maintenanceRate, life);
    MulNonNegative(area, r.repairRate);
    MulNonNegative(area, r.demolitionRate);
    MulNonNegative(area, r.environmentalFactor);
    MulNonNegative(traffic, r.socialFactor);
    MulNonNegative(traffic * r.socialFactor, life);
    MulNonNegative(traffic, r.delayFactor);
    MulNonNegative(traffic * r.delayFactor, life);
  }

  /** Steel defaults, a 30 m by 10 m deck, 5000 vehicles a day, 50 years. */
  lemma SteelScenario()
    ensures CostVector(CostInputs(30, 10, 5000, 50), SteelDefaults) ==
            [900000.0, 750000.0, 60000.0, 30000.0, 3000.0, 125000.0, 75000.0, 1943000.0]
  {
  }
}
