/** The options of a MAC table read, as a profile's parameters ask for them. */
module MacOptions {
  import opened Oids
  import opened Text
  import opened Mac
  import opened MacReads

  const BUDGET: int := 120
  const QUICK_BUDGET: int := 15
  const MAX_VLANS: int := 128

  /** What the parameters hold: a text that is missing is empty, a number that is missing or no
      number is nothing, and the hint is what could be read of it. */
  datatype Profile = Profile(contexts: string, budget: Option<int>, maxVlans: Option<int>, hint: seq<int>, mode: string)

  /** `_clamp`. */
  function Clamp(value: Option<int>, otherwise: int, low: int, high: int): int {
    if value.None? then otherwise
    else if value.value < low then low
    else if value.value > high then high
    else value.value
  }

  function WhenOf(text: string): When {
    var word := Lower(Strip(text));
    if word == "always" then Always else if word == "off" then Off else Auto
  }

  /** `_mac_options`. Whatever the profile asks for, a read has between 5 seconds and 10 minutes, a
      quick one no more than 15 seconds, and at least one and at most 1024 VLANs; what is asked
      for within these bounds is what is done, and what is asked for beyond them is their end. */
  function OptionsOf(p: Profile): (o: Options)
    ensures o.contexts == Always <==> Lower(Strip(p.contexts)) == "always"
    ensures o.contexts == Off <==> Lower(Strip(p.contexts)) == "off"
    ensures o.quick <==> Lower(Strip(p.mode)) == "quick"
    ensures o.hint == p.hint
    ensures p.budget == None ==> o.seconds == if o.quick then 15 else 120
    ensures forall asked :: p.budget == Some(asked) ==>
              o.seconds == if asked < 5 then 5 else if asked <= (if o.quick then 15 else 600) then asked
                           else if o.quick then 15 else 600
    ensures p.maxVlans == None ==> o.maxVlans == 128
    ensures forall asked :: p.maxVlans == Some(asked) ==>
              o.maxVlans == if asked < 1 then 1 else if asked <= 1024 then asked else 1024
  {
    var quick := Lower(Strip(p.mode)) == "quick";
    var budget := Clamp(p.budget, BUDGET, 5, 600);
    Options(WhenOf(p.contexts), quick, if quick && budget > QUICK_BUDGET then QUICK_BUDGET else budget,
            Clamp(p.maxVlans, MAX_VLANS, 1, 1024), p.hint)
  }
}
