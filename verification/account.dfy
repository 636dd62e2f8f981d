/** The account a `pyaxie` object stands for: its normalised address and,
    when the configuration lists it as a scholar, its payout ratio and the
    scholar's personal address (`pyaxie.__init__`). */
module Account {
  import opened Optional
  import opened Address

  type Denominator = d: int | d > 0 witness 1

  /** `payout_percentage` as the exact fraction `num / den`. */
  datatype Ratio = Ratio(num: int, den: Denominator)

  const NoRatio: Ratio := Ratio(0, 1)

  /** One entry of `config['scholars']`, in configuration order. */
  datatype ScholarEntry = ScholarEntry(name: string, roninAddress: string, ratio: Ratio, personalRonin: string)

  /** The scholar fields `__init__` assigns. `Unbound` is the object built
      from an empty scholar list, whose loop body never runs, so
      `payout_percentage` and `personal_ronin` are never assigned. */
  datatype Binding = Unbound | Bound(ratio: Ratio, personal: Option<string>)

  /** A `pyaxie` object: its normalised address, display name, scholar
      fields and the manager's configured address (`config['personal']`). */
  datatype Account = Account(address: string, name: string, binding: Binding, manager: string)

  const DefaultName: string := "you"

  /** Entry `k` is the first whose configured address equals `arg`. */
  predicate FirstMatch(entries: seq<ScholarEntry>, arg: string, k: int) {
    0 <= k < |entries| && entries[k].roninAddress == arg
    && forall j :: 0 <= j < k ==> entries[j].roninAddress != arg
  }

  predicate NoMatch(entries: seq<ScholarEntry>, arg: string) {
    forall j :: 0 <= j < |entries| ==> entries[j].roninAddress != arg
  }

  /** The scholar lookup loop of `__init__`: every non-matching entry resets
      the fields to 0 and `None`, and the first match sets them and stops.
      The comparison uses the address argument as given, not its normalised
      form. */
  method ResolveScholar(entries: seq<ScholarEntry>, arg: string) returns (binding: Binding, name: string)
    ensures |entries| == 0 ==> binding == Unbound && name == DefaultName
    ensures forall k :: FirstMatch(entries, arg, k) ==>
      binding == Bound(entries[k].ratio, Some(Normalise(entries[k].personalRonin))) && name == entries[k].name
    ensures |entries| > 0 && NoMatch(entries, arg) ==> binding == Bound(NoRatio, None) && name == DefaultName
  {
    binding, name := Unbound, DefaultName;
    var i := 0;
    while i < |entries|
      invariant 0 <= i <= |entries|
      invariant forall j :: 0 <= j < i ==> entries[j].roninAddress != arg
      invariant i == 0 ==> binding == Unbound
      invariant i > 0 ==> binding == Bound(NoRatio, None)
      invariant name == DefaultName
    {
      var e := entries[i];
      if e.roninAddress == arg {
        binding := Bound(e.ratio, Some(Normalise(e.personalRonin)));
        name := e.name;
        assert FirstMatch(entries, arg, i);
        return;
      }
      binding := Bound(NoRatio, None);
      i := i + 1;
    }
  }

  /** The same lookup as a function: the index of the first match. */
  function FindScholar(entries: seq<ScholarEntry>, arg: string): (r: Option<nat>)
    ensures r.Some? ==> FirstMatch(entries, arg, r.value)
    ensures r.None? <==> NoMatch(entries, arg)
    decreases |entries|
  {
    if |entries| == 0 then None
    else if entries[0].roninAddress == arg then Some(0)
    else match FindScholar(entries[1..], arg)
      case None => None
      case Some(k) => Some(k + 1)
  }

  /** `pyaxie(ronin_address, ...)` for a configuration with manager address
      `manager` and scholar list `entries`. */
  function NewAccount(arg: string, manager: string, entries: seq<ScholarEntry>): (a: Account)
    ensures a.address == Normalise(arg) && a.manager == manager
    ensures a.binding.Unbound? <==> |entries| == 0
    ensures a.binding.Bound? && a.binding.personal.None? <==> |entries| > 0 && NoMatch(entries, arg)
    ensures |entries| > 0 && NoMatch(entries, arg) ==> a.binding == Bound(NoRatio, None) && a.name == DefaultName
    ensures forall k :: FirstMatch(entries, arg, k) ==>
      a.binding == Bound(entries[k].ratio, Some(Normalise(entries[k].personalRonin))) && a.name == entries[k].name
  {
    if |entries| == 0 then Account(Normalise(arg), DefaultName, Unbound, manager)
    else match FindScholar(entries, arg)
      case None => Account(Normalise(arg), DefaultName, Bound(NoRatio, None), manager)
      case Some(k) =>
        var e := entries[k];
        Account(Normalise(arg), e.name, Bound(e.ratio, Some(Normalise(e.personalRonin))), manager)
  }
}
