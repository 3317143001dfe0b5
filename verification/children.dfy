/** `list_oid_children`: one level of the OID tree, one GETNEXT per child, each child's
    subtree skipped by probing `base.child.4294967295`. */
module Children {
  import opened Oids
  import opened Agent

  /** What a GETNEXT brings: an exception, an error, no binding at all, or a binding. */
  datatype Answer = Raised | Refused | Silent | Found(bind: Bind)

  /** What the n-th GETNEXT, on a name, brings. Arbitrary unless a theorem says otherwise. */
  type Browsed = (nat, Oid) -> Answer

  datatype Child = Child(sub: nat, oid: Oid, firstOid: Oid, sample: string)

  datatype Listing = Unreachable | Listed(children: seq<Child>)

  function Pretty(value: Value): string {
    if value.Val? then value.text else ""
  }

  function ChildAt(base: Oid, b: Bind): Child
    requires Under(base, b.name)
  {
    Child(b.name[|base|], base + [b.name[|base|]], b.name, Pretty(b.value))
  }

  function Probe(base: Oid, out: seq<Child>): Oid {
    if out == [] then base else base + [out[|out| - 1].sub, MAX_SUB]
  }

  /** The listing that follows once `out` has been collected. An error keeps what there is, an
      exception loses it. */
  function Browse(agent: Browsed, base: Oid, limit: int, out: seq<Child>): Listing
    decreases limit - |out|
  {
    if |out| >= limit then Listed(out)
    else match agent(|out|, Probe(base, out))
      case Raised => Unreachable
      case Refused => if out == [] then Unreachable else Listed(out)
      case Silent => Listed(out)
      case Found(b) =>
        if !Under(base, b.name) then Listed(out)
        else Browse(agent, base, limit, out + [ChildAt(base, b)])
  }

  /** The loop as written. An empty `base` text is refused before any request is sent. */
  method ListOidChildren(agent: Browsed, base: Oid, limit: int) returns (r: Listing)
    requires base != []
    ensures r == Browse(agent, base, limit, [])
  {
    var out: seq<Child> := [];
    var probe := base;
    while |out| < limit
      invariant probe == Probe(base, out)
      invariant Browse(agent, base, limit, out) == Browse(agent, base, limit, [])
      decreases limit - |out|
    {
      var answer := agent(|out|, probe);
      match answer {
        case Raised => return Unreachable;
        case Refused =>
          if out == [] {
            return Unreachable;
          }
          break;
        case Silent => break;
        case Found(b) =>
          if !Under(base, b.name) {
            break;
          }
          var sub := b.name[|base|];
          out := out + [Child(sub, base + [sub], b.name, Pretty(b.value))];
          probe := base + [sub, MAX_SUB];
      }
    }
    r := Listed(out);
  }

  // ---- What a listing should be ----

  /** The direct children of `base` that hold an instance. */
  function Kids(mib: Mib, base: Oid): (kids: set<nat>)
    ensures forall o | o in mib && Under(base, o) :: o[|base|] in kids
  {
    set o | o in mib && Under(base, o) :: o[|base|]
  }

  function Subs(out: seq<Child>): set<nat> {
    set i | 0 <= i < |out| :: out[i].sub
  }

  /** An entry names a child and the child's least instance. */
  ghost predicate TrueChild(mib: Mib, base: Oid, c: Child) {
    && c.firstOid in mib && Under(base, c.firstOid) && c.firstOid[|base|] == c.sub
    && c.oid == base + [c.sub] && c.sample == mib[c.firstOid]
    && forall o {:trigger Under(base, o)} | o in mib && Under(base, o) && o[|base|] == c.sub ::
         AtMost(c.firstOid, o)
  }

  /** The first children, in strictly ascending order, none passed over. */
  ghost predicate Segment(mib: Mib, base: Oid, out: seq<Child>) {
    && (forall i | 0 <= i < |out| :: TrueChild(mib, base, out[i]))
    && (forall i, j | 0 <= i < j < |out| :: out[i].sub < out[j].sub)
    && (forall k, i | k in Kids(mib, base) && 0 <= i < |out| && k < out[i].sub :: k in Subs(out))
  }

  /** The first `limit` children, or all of them when there are fewer. */
  ghost predicate Exact(mib: Mib, base: Oid, limit: int, out: seq<Child>) {
    && Segment(mib, base, out)
    && (|out| >= limit || forall k | k in Kids(mib, base) :: k in Subs(out))
  }

  ghost predicate ExactListing(mib: Mib, base: Oid, limit: int, r: Listing) {
    r.Listed? && Exact(mib, base, limit, r.children)
  }

  // ---- When it is ----

  /** An honest agent: exceptions and errors may come at any time, no binding only where the
      MIB ends. */
  ghost predicate HonestAnswer(mib: Mib, probe: Oid, a: Answer) {
    match a
    case Raised => true
    case Refused => true
    case Silent => AtEnd(mib, probe)
    case Found(b) => Follows(mib, probe, b)
  }

  ghost predicate Honest(agent: Browsed, mib: Mib) {
    LegalMib(mib) && forall n: nat, p: Oid :: HonestAnswer(mib, p, agent(n, p))
  }

  /** An honest agent that answers whatever can be asked, as section 4.2.2 of RFC 3416 has it. */
  ghost predicate Answering(agent: Browsed, mib: Mib) {
    && LegalMib(mib)
    && forall n: nat, p: Oid | Legal(p) :: agent(n, p).Found? && Follows(mib, p, agent(n, p).bind)
  }

  /** Every probe below `base` can be sent. */
  predicate Browsable(base: Oid) {
    Legal(base) && |base| + 2 <= MAX_LENGTH
  }

  /** Nothing lies strictly below `base.child.4294967295`. */
  ghost predicate Clean(mib: Mib, base: Oid, child: nat) {
    forall o | o in mib :: !Under(base + [child, MAX_SUB], o)
  }

  /** The MIB goes on after the subtree of `base`. */
  ghost predicate Beyond(mib: Mib, base: Oid) {
    exists o :: o in mib && Less(base, o) && !Under(base, o)
  }

  /** The agent never answers with the probe itself and an end marker. */
  ghost predicate NoEcho(agent: Browsed) {
    forall n: nat, p: Oid :: agent(n, p).Found? ==> agent(n, p).bind.value.Val?
  }
}
