/** What stands on the other side of a walk: an SNMP agent and a clock.

    Nothing is promised about either. An agent may lie, repeat itself, answer out of order,
    send errors, or stop answering. Where a theorem needs an honest agent it says so with
    `Conforms` or `Answers`, which bind the agent to one fixed MIB. */
module Agent {
  import opened Oids

  /** A bound value as `prettyPrint` shows it, or one of the markers that end a column. */
  datatype Value = Val(text: string) | End

  datatype Bind = Bind(name: WireOid, value: Value)

  datatype Indication = Quiet | TimedOut | Broken

  datatype Reply =
    | Raised
    | WaitExpired
    | Response(indication: Indication, status: int, index: int, binds: seq<Bind>)

  /** Which view of the agent a request addresses. */
  datatype Context = DefaultView | VlanView(vid: int)

  /** The environment of a read: what the n-th reading of the clock shows, and what the n-th
      request gets back. Both are arbitrary functions, so every behaviour is covered. */
  datatype World = World(
    clock: nat -> int,
    answer: (nat, Context, seq<Oid>, nat) -> Reply
  )

  /** The instances an agent holds. */
  type Mib = map<Oid, string>

  predicate AtEnd(mib: Mib, o: Oid) {
    forall m | m in mib :: !Less(o, m)
  }

  /** `n` is the first instance after `o`. */
  predicate IsNext(mib: Mib, o: Oid, n: Oid) {
    n in mib && Less(o, n) && forall m | m in mib && Less(o, m) :: AtMost(n, m)
  }

  lemma {:induction false} NextExists(mib: Mib, o: Oid)
    requires !AtEnd(mib, o)
    ensures exists n :: IsNext(mib, o, n)
    decreases |mib|
  {
    var m :| m in mib && Less(o, m);
    var rest := mib - {m};
    if AtEnd(rest, o) {
      assert IsNext(mib, o, m);
    } else {
      NextExists(rest, o);
      var n :| IsNext(rest, o, n);
      NextOfTwo(mib, o, m, n);
    }
  }

  lemma NextOfTwo(mib: Mib, o: Oid, m: Oid, n: Oid)
    requires m in mib && Less(o, m) && IsNext(mib - {m}, o, n)
    ensures IsNext(mib, o, m) || IsNext(mib, o, n)
  {
    LessTotal(m, n);
    if Less(m, n) {
      forall k | k in mib && Less(o, k) ensures AtMost(m, k) {
        if k != m {
          assert k in mib - {m};
          LessAtMost(m, n, k);
        }
      }
    }
  }

  /** The first instance after `o`. */
  ghost function NextInstance(mib: Mib, o: Oid): (n: Oid)
    requires !AtEnd(mib, o)
    ensures IsNext(mib, o, n)
  {
    NextExists(mib, o);
    var n :| IsNext(mib, o, n);
    n
  }

  /** The answer to GETNEXT on `o` (section 4.2.2 of RFC 3416): the first instance after it,
      or endOfMibView under the name that was asked for. */
  predicate Follows(mib: Mib, o: Oid, b: Bind) {
    if AtEnd(mib, o) then b.name == o && b.value == End
    else IsNext(mib, o, b.name) && b.value == Val(mib[b.name])
  }

  ghost predicate LegalMib(mib: Mib) {
    forall o | o in mib :: Legal(o)
  }

  /** The binding an agent holding `mib` answers GETNEXT on `o` with. */
  ghost function Successor(mib: Mib, o: Oid): (b: Bind)
    requires LegalMib(mib) && Legal(o)
    ensures Follows(mib, o, b)
  {
    if AtEnd(mib, o) then Bind(o, End) else Bind(NextInstance(mib, o), Val(mib[NextInstance(mib, o)]))
  }

  /** The name the i-th binding of a GETBULK answer continues from: repetitions are
      interleaved, one binding per requested name (section 4.2.3 of RFC 3416). */
  function Before(names: seq<Oid>, binds: seq<Bind>, i: nat): Oid
    requires i < |names| + |binds|
  {
    if i < |names| then names[i] else binds[i - |names|].name
  }

  /** A reply an honest agent, over a lossy network, can give. The table may hold any number
      of bindings, so a response cut short mid-repetition is covered. An SNMPv1 agent
      answers noSuchName, pointing at a name with nothing after it, where a later version
      sends endOfMibView. */
  ghost predicate Conforms(mib: Mib, names: seq<Oid>, reply: Reply) {
    reply.Response? && reply.indication.Quiet? ==>
      && (reply.status == 0 ==>
            forall i {:trigger Before(names, reply.binds, i)} :: 0 <= i < |reply.binds| ==>
              Follows(mib, Before(names, reply.binds, i), reply.binds[i]))
      && (reply.status == 2 && 1 <= reply.index <= |names| ==>
            AtEnd(mib, names[reply.index - 1]))
  }

  /** In every exchange the agent answers for `mib` in the given context. */
  ghost predicate Answers(world: World, context: Context, mib: Mib) {
    forall n: nat, names: seq<Oid>, repetitions: nat {:trigger world.answer(n, context, names, repetitions)} ::
      Conforms(mib, names, world.answer(n, context, names, repetitions))
  }
}
