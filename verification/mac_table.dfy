/** `_MacTableRead`: one read of a device's MAC address table. */
module MacTable {
  import opened Oids
  import opened Agent
  import opened Text
  import opened Mac
  import opened Walk
  import opened WalkExact
  import opened WalkBounds
  import opened Walker
  import opened Fdb
  import opened FdbProofs
  import opened Contexts
  import opened ContextsProofs
  import opened ContextsRuns
  import opened ContextsBlame
  import opened ContextsEnds
  import opened ContextsLoop
  import opened Exactness
  import opened VlanPlan
  import opened MacFacts
  import opened ContextsExact
  import opened ContextsSkips
  import opened Lateness
  import opened MacReads
  import opened MacOptions

  class MacTableRead {
    const world: World
    const setup: Setup
    const options: Options
    /** `parse_entity_vlans`, on the table of entLogicalTable. */
    const entityVlans: Table -> seq<int>
    /** Which task the event loop resumes. */
    const resume: nat -> nat
    const budget: WalkBudget

    var moment: nat
    var source: Source
    var vlanMap: VlanMap
    var problems: seq<Problem>
    var portMaps: seq<PortMap>
    var defaultBase: bool
    var stack: Option<map<string, string>>
    var halted: bool
    var dropped: Drops
    var read: seq<int>
    var skipped: seq<int>
    var failed: seq<int>

    /** History: entries handed to the filter, how each walk called itself when it ended, the
        rows capped walks have created, and the lookups skipped because time was up,
        and the walks of the default context. */
    var parsed: nat
    var walks: seq<bool>
    ghost var created: nat
    ghost var late: Late
    ghost var asked: seq<Asked>

    constructor (world: World, setup: Setup, options: Options, entityVlans: Table -> seq<int>, resume: nat -> nat)
      ensures fresh(budget) && this.world == world && this.setup == setup && this.options == options
      ensures this.entityVlans == entityVlans && this.resume == resume
      ensures Unread() && moment == 1
      ensures budget.View() == Budget(world.clock(0) + options.seconds, ROW_CAP, false, Unset)
    {
      hide NoDrops;
      hide Drops.Total;
      this.world, this.setup, this.options := world, setup, options;
      this.entityVlans, this.resume := entityVlans, resume;
      budget := new WalkBudget(world.clock(0), options.seconds, ROW_CAP);
      moment, source, vlanMap := 1, NoSource, NoVlanMap;
      problems, portMaps, defaultBase, stack, halted := [], [], false, None, false;
      dropped, read, skipped, failed := NoDrops(), [], [], [];
      parsed, walks, created, late, asked := 0, [], 0, Late(false, false), [];
    }

    function Share(): Shared
      reads this, budget
    {
      Shared(budget.View(), halted, problems, stack, dropped, portMaps, parsed, walks)
    }

    /** Rows still allowed, and rows made. */
    ghost function Allowance(): int
      reads this, budget
    {
      budget.rowsLeft + created
    }

    predicate Stopped()
      reads this, budget
    {
      halted || budget.truncated
    }

    /** No reading of the clock so far has shown the deadline. */
    ghost predicate Prompt()
      reads this, budget
    {
      InTime(world, budget.deadline, 0, moment)
    }

    /** The agent has not fallen silent but on the last walk of the default context, and then the
        read has halted; and a walk that was cut has spent the budget. */
    ghost predicate Obedient()
      reads this, budget
    {
      Heeded(asked, halted, budget.truncated)
    }

    /** `can_walk`: time is left and the agent still answers. */
    method CanWalk() returns (can: bool)
      modifies `moment
      ensures can <==> !halted && budget.deadline - world.clock(old(moment)) > 0
      ensures moment == old(moment) + 1
    {
      can := !halted && budget.Remaining(world.clock(moment)) > 0;
      moment := moment + 1;
    }

    /** `note`: a default-context walk ended early. */
    method Note(column: Oid, stats: Stats)
      modifies `problems, `halted
      ensures Share() == Contexts.Note(old(Share()), column, stats)
    {
      if stats.truncated {
        return;
      }
      problems := problems + [WalkEnded(column)];
      if stats.timeout {
        halted := true;
      }
    }

    /** A walk of the default context, and a note when it is not complete. */
    method Ask(columns: seq<Oid>, capped: bool, repetitions: nat) returns (table: Table, complete: bool)
      requires columns != [] && LegalCursors(columns)
      modifies `moment, `problems, `halted, `walks, `created, `asked, budget
      ensures Onward(old(Share()), Share()) && Allowance() == old(Allowance())
      ensures moment >= old(moment)
      ensures |asked| == |old(asked)| + 1 && asked == old(asked) + [asked[|asked| - 1]]
      ensures asked[|asked| - 1].columns == columns
      ensures asked[|asked| - 1].silent <==>
                Silent(world, DefaultView, Config(columns, RETRIES, true, capped), repetitions, old(budget.View()),
                       old(moment), moment)
      ensures halted <==> old(halted) || asked[|asked| - 1].silent
      ensures budget.truncated <==> old(budget.truncated) || asked[|asked| - 1].cut
      ensures Built(|columns|, table)
      ensures !complete ==> !Clean(Share())
      ensures forall mib | Answers(world, DefaultView, mib) ::
                Truthful(mib, columns, table) && (complete ==> Exact(mib, columns, table))
    {
      hide Answers;
      hide Truthful;
      hide Exact;
      hide Walked;
      hide Built;
      hide LegalCursors;
      ghost var before, at := Share(), moment;
      ghost var cfg := Config(columns, RETRIES, true, capped);
      var stats;
      table, complete, stats, moment :=
        WalkColumns(world, moment, DefaultView, columns, repetitions, RETRIES, budget, capped);
      WalkReports(world, DefaultView, cfg, repetitions, before.budget, at, table, complete, stats, moment,
                  budget.View());
      forall mib | Answers(world, DefaultView, mib)
        ensures Truthful(mib, columns, table) && (complete ==> Exact(mib, columns, table))
      {
        WalkRefines(world, DefaultView, cfg, repetitions, before.budget, at, table, complete, stats, moment,
                    budget.View(), mib);
      }
      ghost var after := budget.View();
      walks := walks + [complete];
      created := created + if capped then |table.order| else 0;
      asked := asked + [Asked(columns, stats.timeout, stats.truncated)];
      hide Silent;
      if !complete {
        Note(columns[0], stats);
      }
      AskIsOnward(before, cfg, table, complete, stats, after, columns[0], Share());
      hide Onward;
      hide Clean;
    }

    /** A walk of one column of the default context, as row indexes and texts. */
    method AskColumn(column: Oid) returns (cells: Column, complete: bool)
      requires Legal(column)
      modifies `moment, `problems, `halted, `walks, `created, `asked, budget
      ensures Onward(old(Share()), Share()) && Allowance() == old(Allowance())
      ensures moment >= old(moment)
      ensures |asked| == |old(asked)| + 1 && asked == old(asked) + [asked[|asked| - 1]]
      ensures asked[|asked| - 1].columns == [column]
      ensures asked[|asked| - 1].silent <==>
                Silent(world, DefaultView, Config([column], RETRIES, true, false), REPETITIONS, old(budget.View()),
                       old(moment), moment)
      ensures halted <==> old(halted) || asked[|asked| - 1].silent
      ensures budget.truncated <==> old(budget.truncated) || asked[|asked| - 1].cut
      ensures !complete ==> !Clean(Share())
      ensures forall mib | Answers(world, DefaultView, mib) :: complete ==> cells == MibColumn(mib, column)
    {
      hide Answers;
      hide Exact;
      hide Truthful;
      hide Onward;
      hide Built;
      hide Clean;
      hide Silent;
      var rows;
      rows, complete := Ask([column], false, REPETITIONS);
      cells := ColumnOf(rows, 0);
      ColumnsAreMib(world, [column], rows, complete);
    }

    /** `_qbridge_vlans`: the entries with their VLANs. Names that are not read for lack of time
        are remembered. */
    method QbridgeVlans(entries: seq<Entry>, vlanFdb: Column, vlanFdbComplete: bool)
      returns (out: seq<Entry>, ghost named: set<int>)
      requires Legal(setup.oids.vlanName) && !late.names
      modifies `moment, `problems, `halted, `walks, `created, `asked, `late, `vlanMap, budget
      ensures Onward(old(Share()), Share()) && Allowance() == old(Allowance())
      ensures old(Obedient()) ==> Obedient()
      ensures old(asked) <= asked
      ensures Timely(world, budget.deadline, old(moment), moment, old(late), late) && late.stack == old(late.stack)
      ensures out == WithVlans(entries, AttributionOf(IdsOf(entries), vlanFdb, named))
      ensures vlanMap == HowVlans(IdsOf(entries), vlanFdb, named)
      ensures !(vlanFdb == map[] && vlanFdbComplete) ==> named == {}
      ensures Clean(Share()) && Sound(old(Share())) && vlanFdbComplete ==>
                forall mib | Answers(world, DefaultView, mib) && vlanFdb == MibColumn(mib, setup.oids.vlanFdb) ::
                  NamedBy(mib, setup, late.names, named)
    {
      hide MibColumn;
      hide Silent;
      hide Timely;
      hide Answers;
      hide VlanFor;
      hide HowVlans;
      hide NamesIn;
      hide Onward;
      hide Sound;
      hide Clean;
      OnwardStays(Share());
      ghost var at := moment;
      if halted && Sound(Share()) {
        StopIsTold(Share(), Share());
      }
      var known: set<int> := {};
      if vlanFdb == map[] && vlanFdbComplete {
        known := setup.ifaces.pvids;
        var can := CanWalk();
        if can {
          var names, ok := AskColumn(setup.oids.vlanName);
          known := known + NamesIn(names);
        } else if !halted {
          late := late.(names := true);
          TimelyLate(world, budget.deadline, at, at, moment, old(late), late);
        }
      }
      if late == old(late) {
        TimelyWalk(world, budget.deadline, at, moment, late);
      }
      named := known;
      var vlanOf, how := MapFdbVlans(IdsOf(entries), vlanFdb, known);
      vlanMap := how;
      out := seq(|entries|, i requires 0 <= i < |entries| =>
        entries[i].(vlan := if entries[i].fdbId.Some? && entries[i].fdbId.value in vlanOf
                            then vlanOf[entries[i].fdbId.value] else None));
      VlansGiven(entries, vlanFdb, named, vlanOf, out);
    }

    /** The stack table is read when a row sits on a logical unit. If it is not read for lack of
        time, this is remembered. */
    method ReadStack(learned: seq<Row>) returns (logical: bool)
      requires Legal(setup.oids.ifStack) && !late.stack && stack.None?
      modifies `moment, `problems, `halted, `walks, `created, `asked, `late, `stack, budget
      ensures Onward(old(Share()), Share()) && Allowance() == old(Allowance())
      ensures old(Obedient()) ==> Obedient()
      ensures old(asked) <= asked
      ensures Timely(world, budget.deadline, old(moment), moment, old(late), late) && late.names == old(late.names)
      ensures logical == HasLogical(learned, setup.ifaces)
      ensures forall mib | Answers(world, DefaultView, mib) :: StackTrue(mib, setup, Share())
      ensures Clean(Share()) && Sound(old(Share())) ==>
                forall mib | Answers(world, DefaultView, mib) :: StackedBy(mib, setup, learned, late.stack, stack)
    {
      hide MibColumn;
      hide Silent;
      hide Timely;
      hide Answers;
      hide UnitPortsOf;
      hide IsUnitPorts;
      hide StackTrue;
      hide Onward;
      hide Sound;
      hide Clean;
      ghost var before := Share();
      OnwardStays(Share());
      ghost var at := moment;
      if halted && Sound(Share()) {
        StopIsTold(Share(), Share());
      }
      NoStack(world, setup, Share());
      logical := exists r :: r in learned && setup.ifaces.Known(r.ifIndex) && !setup.ifaces.IsPort(r.ifIndex);
      assert logical == HasLogical(learned, setup.ifaces);
      hide HasLogical;
      if logical && stack.None? {
        var can := CanWalk();
        if can {
          var below, ok := AskColumn(setup.oids.ifStack);
          var ports := UnitPorts(below, setup.ifaces);
          ghost var walked := Share();
          stack := Some(ports);
          OnwardWithStack(before, walked, Share());
          StackRead(world, setup, Share(), ok);
        } else {
          if !halted {
            late := late.(stack := true);
            TimelyLate(world, budget.deadline, at, at, moment, old(late), late);
          }
          NoStack(world, setup, Share());
        }
      }
      if late == old(late) {
        TimelyWalk(world, budget.deadline, at, moment, late);
      }
    }

    /** `_learned`: the filter over one table, and the folding of logical units. */
    method Learn(entries: seq<Entry>, base: Column) returns (rows: seq<Row>)
      requires Legal(setup.oids.ifStack) && !late.stack && stack.None?
      modifies `moment, `problems, `halted, `walks, `created, `asked, `late
      modifies `stack, `dropped, `portMaps, `parsed, budget
      ensures Onward(old(Share()), Share()) && Allowance() == old(Allowance())
      ensures old(Obedient()) ==> Obedient()
      ensures old(asked) <= asked
      ensures Timely(world, budget.deadline, old(moment), moment, old(late), late) && late.names == old(late.names)
      ensures var l := Learned(entries, base, setup.ifaces, old(dropped));
              && dropped == l.dropped
              && portMaps == old(portMaps) + (if l.how.Some? then [l.how.value] else [])
              && rows == FoldIf(l.rows, stack, setup.ifaces)
              && (Clean(Share()) && Sound(old(Share())) ==>
                    forall mib | Answers(world, DefaultView, mib) :: StackedBy(mib, setup, l.rows, late.stack, stack))
      ensures parsed == old(parsed) + |entries|
      ensures forall mib | Answers(world, DefaultView, mib) :: StackTrue(mib, setup, Share())
      ensures parsed + old(dropped).Total() == old(parsed) + |rows| + dropped.Total()
    {
      hide Answers;
      hide Learned;
      hide StackedBy;
      hide StackTrue;
      hide HasLogical;
      hide Timely;
      ghost var was := dropped;
      var learned, how, counted := LearnedRows(entries, base, setup.ifaces, dropped);
      FilterConserves(entries, base, setup.ifaces, was);
      dropped, parsed := counted, parsed + |entries|;
      portMaps := portMaps + if how.Some? then [how.value] else [];
      var logical := ReadStack(learned);
      rows := if logical && stack.Some? then FoldRows(learned, stack.value) else learned;
    }

    /** `_context_vlans`: the VLANs with a context of their own, and whether the agent listed
        them. */
    method ContextVlans() returns (vlans: seq<int>, advertised: bool)
      requires setup.oids.entLogical != [] && LegalCursors(setup.oids.entLogical) && Legal(setup.oids.vlanState)
      modifies `moment, `problems, `halted, `walks, `created, `asked, budget
      ensures Onward(old(Share()), Share()) && Allowance() == old(Allowance())
      ensures old(Obedient() && !halted) ==> Obedient()
      ensures old(asked) <= asked
      ensures moment >= old(moment)
      ensures advertised ==> vlans != []
      ensures !advertised && vlans != [] ==> options.contexts == Always && vlans == options.hint
      ensures Clean(Share()) && Sound(old(Share())) ==>
                forall mib | Answers(world, DefaultView, mib) ::
                  Advertised(mib, setup, options, entityVlans, vlans, advertised)
    {
      hide Answers;
      hide Exact;
      hide Truthful;
      hide Accounted;
      hide VtpVlans;
      hide Advertised;
      ghost var before := Share();
      var table, ok := Ask(setup.oids.entLogical, false, 25);
      vlans := entityVlans(table);
      if vlans != [] || Stopped() {
        AdvertisedBy(world, setup, options, entityVlans, table, vlans, vlans != [], Clean(Share()) && Sound(before));
        return vlans, vlans != [];
      }
      var states, statesOk := AskColumn(setup.oids.vlanState);
      vlans := VtpVlans(states);
      if vlans != [] || Stopped() {
        AdvertisedBy(world, setup, options, entityVlans, table, vlans, vlans != [], Clean(Share()) && Sound(before));
        return vlans, vlans != [];
      }
      if options.contexts == Always {
        vlans := options.hint;
      }
      AdvertisedBy(world, setup, options, entityVlans, table, vlans, false, Clean(Share()) && Sound(before));
      return vlans, false;
    }

    /** What the tasks of a per-VLAN read leave behind. */
    method Adopt(b: Board)
      requires b.shared.budget.deadline == budget.deadline
      modifies `problems, `halted, `walks, `created, `stack, `dropped, `portMaps, `parsed
      modifies `read, `skipped, `failed, budget
      ensures Share() == b.shared.(problems := Reported(b))
      ensures read == old(read) + b.read && skipped == old(skipped) + b.skipped && failed == old(failed) + b.failed
      ensures created == old(created) + TotalMade(b.readers)
    {
      hide Reported;
      hide TotalMade;
      budget.rowsLeft, budget.truncated, budget.reason :=
        b.shared.budget.rowsLeft, b.shared.budget.truncated, b.shared.budget.reason;
      problems, halted, stack := Reported(b), b.shared.halted, b.shared.stack;
      dropped, portMaps, parsed, walks := b.shared.dropped, b.shared.portMaps, b.shared.parsed, b.shared.walks;
      read, skipped, failed := read + b.read, skipped + b.skipped, failed + b.failed;
      created := created + TotalMade(b.readers);
    }

    /** `_read_contexts`. */
    method ReadContexts(vlans: seq<int>) returns (rows: seq<Row>)
      requires LegalScheme(setup.oids) && Rising(vlans) && Sound(Share())
      requires read == [] && failed == []
      modifies `moment, `problems, `halted, `walks, `created, `stack, `dropped, `portMaps, `parsed
      modifies `read, `skipped, `failed, budget
      ensures Moves(old(Share()), Share()) && Accounted(Share()) && Allowance() == old(Allowance())
      ensures moment >= old(moment)
      ensures Balance(old(Share()), Share(), |rows|) && OnPlanned(rows, vlans)
      ensures multiset(read) + multiset(skipped) + multiset(failed) == multiset(old(skipped)) + multiset(vlans)
      ensures Clean(Share()) ==> failed == [] && OnPlanned(rows, read)
      ensures Clean(Share()) ==>
                VlansExact(world, setup, old(Share()), Prompt(), read, KeysOf(rows))
      ensures Clean(Share()) && Prompt() ==> skipped == old(skipped)
      ensures Blame(old(Share())) ==> Blame(Share())
    {
      hide ReadBy;
      hide Reported;
      hide Gathered;
      hide TotalMade;
      hide LegalScheme;
      hide Accounted;
      hide Moves;
      hide Balance;
      hide Rising;
      hide OnPlanned;
      hide VlansExact;
      hide KeysOf;
      hide Clean;
      ghost var before, at := Share(), moment;
      var b, next;
      ghost var run;
      RisingDistinct(vlans);
      b, next, run := RunContexts(world, setup, resume, moment, Share(), vlans);
      ContextsKept(world, setup, before, vlans, at, run, b);
      ContextsDone(world, setup, before, vlans, at, run, b);
      ContextsDoneExactly(world, setup, before, vlans, at, run, b, InTime(world, before.budget.deadline, 0, next));
      ContextsInTime(world, setup, before, vlans, at, run, b);
      ContextsBlamed(world, setup, before, vlans, at, run, b);
      assert InTime(world, before.budget.deadline, 0, next) ==> InTime(world, before.budget.deadline, at, next);
      hide InTime;
      hide Blame;
      moment := next;
      Adopt(b);
      assert read == b.read && failed == b.failed;
      rows := Gathered(b, |vlans|);
    }

    /** What the per-VLAN read says of the default context's rows. */
    method Settle(defaults: seq<Row>, advertised: bool) returns (rows: seq<Row>)
      requires vlanMap == NoVlanMap
      modifies `source, `vlanMap
      ensures source == if read != [] then BridgeVlan else old(source)
      ensures vlanMap == if advertised || read != [] then ContextMap else NoVlanMap
      ensures rows == DefaultPart(defaults, vlanMap, read)
    {
      rows := defaults;
      if read != [] {
        source := BridgeVlan;
      }
      if advertised || read != [] {
        vlanMap := ContextMap;
        if 1 in read {
          rows := [];
        }
        for n := 0 to |rows|
          invariant |rows| == if 1 in read then 0 else |defaults|
          invariant forall i :: 0 <= i < |rows| ==> rows[i] == if i < n then OnVlanOne(defaults)[i] else defaults[i]
        {
          if rows[n].vlan.None? {
            rows := rows[n := rows[n].(vlan := Some(1))];
          }
        }
        assert 1 !in read ==> rows == OnVlanOne(defaults);
      }
    }

    /** The VLANs to read, those over the cap, and whether the agent listed them. */
    method Choose() returns (toRead: seq<int>, over: seq<int>, advertised: bool, ghost vlans: seq<int>)
      requires LegalScheme(setup.oids) && setup.oids.entLogical != [] && Sound(Share())
      modifies `moment, `problems, `halted, `walks, `created, `asked, budget
      ensures Moves(old(Share()), Share()) && Sound(Share()) && Allowance() == old(Allowance())
      ensures old(Obedient() && !halted) ==> Obedient()
      ensures old(asked) <= asked
      ensures moment >= old(moment)
      ensures Blame(old(Share())) ==> Blame(Share())
      ensures (toRead, over) == Plan(vlans, options.maxVlans)
      ensures Rising(toRead) && |toRead| <= options.maxVlans && (over != [] ==> toRead != [])
      ensures AllPlannable(over + toRead)
      ensures Stopped() ==> !Clean(Share())
      ensures Clean(Share()) ==>
                forall mib | Answers(world, DefaultView, mib) ::
                  Advertised(mib, setup, options, entityVlans, vlans, advertised)
    {
      hide LegalScheme;
      hide Accounted;
      hide Plannable;
      hide Rising;
      hide Answers;
      hide Advertised;
      SchemeLegal(setup.oids);
      var found;
      found, advertised := ContextVlans();
      vlans := found;
      PlanMeaning(found, options.maxVlans);
      PlanIsPlannable(found, options.maxVlans);
      var plan := Plan(found, options.maxVlans);
      hide Plan;
      toRead, over := plan.0, plan.1;
    }

    /** The VLANs of the plan are read, or skipped with a word. */
    method ReadPlanned(toRead: seq<int>, over: seq<int>) returns (perVlan: seq<Row>)
      requires LegalScheme(setup.oids) && Rising(toRead) && Sound(Share())
      requires read == [] && failed == []
      modifies `moment, `problems, `halted, `walks, `created, `stack, `dropped, `portMaps, `parsed
      modifies `read, `skipped, `failed, budget
      ensures Moves(old(Share()), Share()) && Accounted(Share()) && Allowance() == old(Allowance())
      ensures moment >= old(moment)
      ensures Balance(old(Share()), Share(), |perVlan|)
      ensures OnPlanned(perVlan, toRead)
      ensures multiset(read) + multiset(skipped) + multiset(failed)
              == multiset(old(skipped)) + multiset(over) + multiset(toRead)
      ensures Clean(Share()) ==> failed == [] && OnPlanned(perVlan, read)
      ensures if options.quick then !Clean(Share()) else Blame(old(Share())) ==> Blame(Share())
      ensures Clean(Share()) && Prompt() ==>
                skipped == old(skipped) + over && multiset(read) == multiset(toRead)
      ensures Clean(Share()) ==>
                VlansExact(world, setup, old(Share()), Prompt(), read, KeysOf(perVlan))
    {
      hide LegalScheme;
      hide Accounted;
      hide OnPlanned;
      hide Rising;
      hide Blame;
      hide InTime;
      hide VlansExact;
      hide KeysOf;
      ghost var before := Share();
      skipped := skipped + over;
      assert Share() == before;
      if options.quick {
        skipped := skipped + toRead;
        problems := problems + [QuickRead];
        perVlan := [];
        QuickIsSound(before, Share(), toRead);
      } else {
        perVlan := ReadContexts(toRead);
        RestRead(read, skipped, failed, old(skipped) + over, toRead,
                 Clean(Share()) && Prompt());
      }
    }

    /** The plan is carried out, and the rows are put together. */
    method CarryOut(defaults: seq<Row>, toRead: seq<int>, over: seq<int>, advertised: bool)
      returns (rows: seq<Row>, ghost perVlan: seq<Row>)
      requires LegalScheme(setup.oids) && Rising(toRead) && Sound(Share()) && vlanMap == NoVlanMap
      requires read == [] && skipped == [] && failed == []
      modifies `moment, `problems, `halted, `walks, `created, `stack, `dropped, `portMaps, `parsed
      modifies `read, `skipped, `failed, `source, `vlanMap, budget
      ensures Moves(old(Share()), Share()) && Accounted(Share()) && Allowance() == old(Allowance())
      ensures moment >= old(moment)
      ensures if options.quick then !Clean(Share()) else Blame(old(Share())) ==> Blame(Share())
      ensures rows == DefaultPart(defaults, vlanMap, read) + perVlan
      ensures Balance(old(Share()), Share(), |perVlan|) && OnPlanned(perVlan, over + toRead)
      ensures multiset(read) + multiset(skipped) + multiset(failed) == multiset(over + toRead)
      ensures Clean(Share()) ==> failed == [] && OnPlanned(perVlan, read)
      ensures Clean(Share()) ==>
                VlansExact(world, setup, old(Share()), Prompt(), read, KeysOf(perVlan))
      ensures Clean(Share()) && Prompt() ==>
                skipped == over && multiset(read) == multiset(toRead)
      ensures source == if read != [] then BridgeVlan else old(source)
      ensures vlanMap == if advertised || read != [] then ContextMap else NoVlanMap
    {
      hide LegalScheme;
      hide Accounted;
      hide Moves;
      hide Balance;
      hide Clean;
      hide DefaultPart;
      hide OnPlanned;
      hide Rising;
      hide VlansExact;
      hide KeysOf;
      hide Blame;
      hide InTime;
      var more := ReadPlanned(toRead, over);
      PlannedMore(more, toRead, over);
      perVlan := more;
      rows := Settle(defaults, advertised);
      rows := rows + more;
    }

    /** `_per_vlan`. `planned` are the VLANs it set out for, `perVlan` the rows of their own
        contexts. */
    method PerVlan(defaults: seq<Row>) returns (rows: seq<Row>, ghost perVlan: seq<Row>, ghost planned: seq<int>)
      requires LegalScheme(setup.oids) && setup.oids.entLogical != [] && Sound(Share())
      requires read == [] && skipped == [] && failed == [] && vlanMap == NoVlanMap
      modifies `moment, `problems, `halted, `walks, `created, `asked, `stack, `dropped, `portMaps, `parsed
      modifies `read, `skipped, `failed, `source, `vlanMap, budget
      ensures Keeps(old(Share()), Share(), |perVlan|, options.quick && planned != [])
      ensures Allowance() == old(Allowance())
      ensures rows == DefaultPart(defaults, vlanMap, read) + perVlan
      ensures old(Obedient() && !halted) ==> Obedient()
      ensures old(asked) <= asked
      ensures old(Obedient() && !halted) && planned != [] ==> NoStop(asked)
      ensures moment >= old(moment)
      ensures AllPlannable(planned) && OnPlanned(perVlan, planned)
      ensures multiset(read) + multiset(skipped) + multiset(failed) == multiset(planned)
      ensures Clean(Share()) ==> failed == [] && OnPlanned(perVlan, read)
      ensures Clean(Share()) ==>
                VlansExact(world, setup, old(Share()), Prompt(), read, KeysOf(perVlan))
      ensures Clean(Share()) ==>
                forall mib | Answers(world, DefaultView, mib) ::
                  Planned(mib, setup, options, entityVlans, Prompt(), planned, read, skipped)
      ensures read != [] ==> vlanMap == ContextMap
      ensures source == if read != [] then BridgeVlan else old(source)
      ensures vlanMap == NoVlanMap || vlanMap == ContextMap
    {
      hide LegalScheme;
      hide Accounted;
      hide Plannable;
      hide DefaultPart;
      hide OnPlanned;
      hide Rising;
      hide VlansExact;
      hide KeysOf;
      hide Answers;
      hide Blame;
      hide InTime;
      hide Advertised;
      hide Follow;
      ghost var before := Share();
      var toRead, over, advertised;
      ghost var vlans;
      toRead, over, advertised, vlans := Choose();
      ghost var chosen := Share();
      perVlan, planned := [], [];
      if Stopped() || toRead == [] {
        rows := defaults;
        NoDefaultPart(defaults, vlanMap, read);
        NoneRead(world, setup, before, Prompt(), KeysOf(perVlan));
        assert toRead == [] ==> over + toRead == [] && multiset(read) == multiset(toRead);
        Followed(vlans, options.maxVlans, Prompt() && toRead == [], over + toRead, read, skipped,
                 toRead, over);
        return;
      }
      planned := over + toRead;
      rows, perVlan := CarryOut(defaults, toRead, over, advertised);
      Followed(vlans, options.maxVlans, Clean(Share()) && Prompt(), planned, read, skipped,
               toRead, over);
      ExactSince(world, setup, before, chosen, Prompt(), read, KeysOf(perVlan),
                 Clean(Share()));
    }

    /** The rows of the Q-BRIDGE table. */
    method ReadQBridge(table: Table, base: Column, vlanFdb: Column, vlanFdbComplete: bool) returns (rows: seq<Row>)
      requires Legal(setup.oids.vlanName) && Legal(setup.oids.ifStack) && stack.None? && late == Late(false, false)
      modifies `moment, `problems, `halted, `walks, `created, `asked, `late, `vlanMap, `source
      modifies `stack, `dropped, `portMaps, `parsed, budget
      ensures old(Obedient()) ==> Obedient()
      ensures old(asked) <= asked
      ensures Timely(world, budget.deadline, old(moment), moment, old(late), late)
      ensures Onward(old(Share()), Share()) && Allowance() == old(Allowance())
      ensures parsed + old(dropped).Total() == old(parsed) + |rows| + dropped.Total()
      ensures source == QBridge && vlanMap != ContextMap
      ensures Clean(Share()) && Sound(old(Share())) && vlanFdbComplete ==>
                forall mib | Answers(world, DefaultView, mib) && Walks(mib, setup, QTable(setup.oids), table, base)
                             && vlanFdb == MibColumn(mib, setup.oids.vlanFdb) ::
                  QKeysExact(mib, setup, late, KeysOf(FirstOnly(rows)))
    {
      hide Answers;
      hide Walks;
      hide QExact;
      hide Blurs;
      hide MacsOwed;
      hide FoldIf;
      hide StackedBy;
      hide StackTrue;
      hide NamedBy;
      hide Timely;
      hide Learned;
      hide FirstOnly;
      hide KeysOf;
      hide ParseRows;
      hide WithVlans;
      hide Accounted;
      ghost var was, before, at := dropped, Share(), moment;
      source := QBridge;
      var entries := ParseFdbTable(table, true);
      var attributed;
      ghost var named;
      attributed, named := QbridgeVlans(entries, vlanFdb, vlanFdbComplete);
      hide HowVlans;
      ghost var middle, sooner := moment, late;
      rows := Learn(attributed, base);
      TimelyThrough(world, budget.deadline, at, middle, moment, Late(false, false), sooner, late);
      if Clean(Share()) && Sound(before) && vlanFdbComplete {
        forall mib | Answers(world, DefaultView, mib) && Walks(mib, setup, QTable(setup.oids), table, base)
                     && vlanFdb == MibColumn(mib, setup.oids.vlanFdb)
          ensures QKeysExact(mib, setup, late, KeysOf(FirstOnly(rows)))
        {
          QRows(mib, setup, table, base, late, named, was, stack);
        }
      }
    }

    /** The default context of the BRIDGE branch of `_read`. */
    method ReadBridge(table: Table, base: Column) returns (rows: seq<Row>)
      requires Legal(setup.oids.ifStack) && stack.None? && !late.stack
      modifies `moment, `problems, `halted, `walks, `created, `asked, `late, `source
      modifies `stack, `dropped, `portMaps, `parsed, budget
      ensures old(Obedient()) ==> Obedient()
      ensures old(asked) <= asked
      ensures Timely(world, budget.deadline, old(moment), moment, old(late), late)
      ensures Onward(old(Share()), Share()) && Allowance() == old(Allowance())
      ensures parsed + old(dropped).Total() == old(parsed) + |rows| + dropped.Total()
      ensures source == if table.order != [] then Bridge else old(source)
      ensures forall r | r in rows :: r.vlan == None
      ensures forall mib | Answers(world, DefaultView, mib) :: StackTrue(mib, setup, Share())
      ensures Clean(Share()) && Sound(old(Share())) ==>
                forall mib | Answers(world, DefaultView, mib) && Walks(mib, setup, DTable(setup.oids), table, base) ::
                  BridgeExact(mib, setup, late, rows)
    {
      hide Answers;
      hide Walks;
      hide ExactKeys;
      hide LateFold;
      hide FoldIf;
      hide StackedBy;
      hide StackTrue;
      hide Learned;
      hide FirstOnly;
      hide KeysOf;
      hide ParseRows;
      hide WithVlans;
      hide NoVlan;
      hide Accounted;
      hide Timely;
      ghost var was, before := dropped, Share();
      if table.order != [] {
        source := Bridge;
      }
      var entries := ParseFdbTable(table, false);
      NoVlanGiven(table);
      rows := Learn(entries, base);
      LearnedVlanless(table, base, setup.ifaces, was, stack);
      if Clean(Share()) && Sound(before) {
        forall mib | Answers(world, DefaultView, mib) && Walks(mib, setup, DTable(setup.oids), table, base)
          ensures BridgeExact(mib, setup, late, rows)
        {
          FilteredKeys(mib, setup, DTable(setup.oids), table, base, NoVlan(), was, late.stack, stack);
        }
      }
    }

    /** The two lookups that every read begins with: the base ports and the VLANs' FDB ids. */
    method ReadLookups() returns (base: Column, vlanFdb: Column, vlanFdbComplete: bool, going: bool)
      requires LegalScheme(setup.oids)
      modifies `moment, `problems, `halted, `walks, `created, `asked, `defaultBase, budget
      ensures Onward(old(Share()), Share()) && Allowance() == old(Allowance()) && moment >= old(moment)
      ensures old(Obedient() && !Stopped()) ==> Obedient()
      ensures old(asked) == [] && !old(Stopped()) ==>
                && FirstWalks(setup.oids, asked, false) && Named(setup.oids, asked)
                && |asked| <= 2 && (going ==> |asked| == 2)
      ensures going ==> !Stopped()
      ensures !going && Sound(old(Share())) ==> !Clean(Share())
      ensures going && Clean(Share()) ==> vlanFdbComplete
      ensures going && Clean(Share()) ==>
                forall mib | Answers(world, DefaultView, mib) ::
                  base == MibColumn(mib, setup.oids.basePort) && vlanFdb == MibColumn(mib, setup.oids.vlanFdb)
    {
      hide MibColumn;
      hide Answers;
      hide Exact;
      hide Truthful;
      hide Onward;
      hide Sound;
      hide Clean;
      hide LegalScheme;
      hide Built;
      assert asked == [] ==> Obedient();
      hide Heeded;
      hide FirstWalks;
      hide Named;
      hide Silent;
      SchemeLegal(setup.oids);
      ghost var asked0, calm, before := asked, Obedient() && !Stopped(), Share();
      vlanFdb, vlanFdbComplete, going := map[], false, false;
      var ok;
      base, ok := AskColumn(setup.oids.basePort);
      ghost var asked1, between := asked, Share();
      AskedOn(setup.oids, asked0, asked, [setup.oids.basePort], calm, halted, budget.truncated);
      if Stopped() {
        if Sound(before) {
          StopIsTold(before, Share());
        }
        return;
      }
      defaultBase := base != map[];
      vlanFdb, vlanFdbComplete := AskColumn(setup.oids.vlanFdb);
      AskedOn(setup.oids, asked1, asked, [setup.oids.vlanFdb], calm, halted, budget.truncated);
      OnwardOn(before, between, Share());
      if Stopped() {
        if Sound(before) {
          StopIsTold(before, Share());
        }
        return;
      }
      going := true;
    }

    /** The walks that every read begins with. */
    method ReadTables() returns (base: Column, vlanFdb: Column, vlanFdbComplete: bool, table: Table, going: bool)
      requires LegalScheme(setup.oids)
      modifies `moment, `problems, `halted, `walks, `created, `asked, `defaultBase, budget
      ensures Onward(old(Share()), Share()) && Allowance() == old(Allowance()) && moment >= old(moment)
      ensures old(Obedient() && !Stopped()) ==> Obedient()
      ensures old(asked) == [] && !old(Stopped()) ==> FirstWalks(setup.oids, asked, going) && |asked| <= 3
      ensures !going && Sound(old(Share())) ==> !Clean(Share())
      ensures going && Clean(Share()) ==> vlanFdbComplete
      ensures going && Clean(Share()) ==>
                forall mib | Answers(world, DefaultView, mib) ::
                  && Walks(mib, setup, QTable(setup.oids), table, base)
                  && base == MibColumn(mib, setup.oids.basePort) && vlanFdb == MibColumn(mib, setup.oids.vlanFdb)
                  && (table.order == [] ==> NoRows(mib, QTable(setup.oids)))
    {
      hide Answers;
      hide Exact;
      hide Truthful;
      hide Accounted;
      hide LegalScheme;
      hide NoRows;
      hide RowsHaveCells;
      hide Built;
      assert asked == [] ==> Obedient();
      hide Heeded;
      hide FirstWalks;
      hide Named;
      hide Silent;
      SchemeLegal(setup.oids);
      ghost var calm := Obedient() && !Stopped();
      table := EMPTY;
      base, vlanFdb, vlanFdbComplete, going := ReadLookups();
      if !going {
        return;
      }
      ghost var asked2 := asked;
      var ok;
      table, ok := Ask([setup.oids.qPort, setup.oids.qStatus], true, REPETITIONS);
      AskedOn(setup.oids, asked2, asked, [setup.oids.qPort, setup.oids.qStatus], calm, halted, budget.truncated);
      TablesWalked(world, setup, QTable(setup.oids), table, ok);
    }

    /** The BRIDGE branch of `_read` up to its default context's rows. */
    method ReadDefault(base: Column) returns (rows: seq<Row>)
      requires Legal(setup.oids.dPort) && Legal(setup.oids.dStatus) && Legal(setup.oids.ifStack)
      requires stack.None? && !late.stack
      modifies `moment, `problems, `halted, `walks, `created, `asked, `late, `source
      modifies `stack, `dropped, `portMaps, `parsed, budget
      ensures old(Obedient() && !halted) ==> Obedient()
      ensures old(asked) <= asked
      ensures Timely(world, budget.deadline, old(moment), moment, old(late), late)
      ensures Onward(old(Share()), Share()) && Allowance() == old(Allowance())
      ensures parsed + old(dropped).Total() == old(parsed) + |rows| + dropped.Total()
      ensures source == Bridge || source == old(source)
      ensures forall r | r in rows :: r.vlan == None
      ensures forall mib | Answers(world, DefaultView, mib) :: StackTrue(mib, setup, Share())
      ensures Clean(Share()) && Sound(old(Share())) ==>
                forall mib | Answers(world, DefaultView, mib) && base == MibColumn(mib, setup.oids.basePort) ::
                  BridgeExact(mib, setup, late, rows)
    {
      hide Answers;
      hide Exact;
      hide Truthful;
      hide Accounted;
      hide NoRows;
      hide RowsHaveCells;
      hide Built;
      hide BridgeExact;
      hide StackTrue;
      hide Timely;
      ghost var at := moment;
      var table, ok := Ask([setup.oids.dPort, setup.oids.dStatus], true, REPETITIONS);
      TablesWalked(world, setup, DTable(setup.oids), table, ok);
      ghost var middle := moment;
      rows := ReadBridge(table, base);
      TimelyWalk(world, budget.deadline, at, middle, old(late));
      TimelyThrough(world, budget.deadline, at, middle, moment, old(late), old(late), late);
    }

    /** The result of a read: the default context's part and the rows of the VLANs' own contexts. Each
        planned VLAN is in one list; with no problem none failed, and the rows are of the VLANs read and
        exactly theirs. */
    ghost predicate Filed(rows: seq<Row>, defaults: seq<Row>, perVlan: seq<Row>, planned: seq<int>)
      reads this, budget
    {
      && rows == DefaultPart(defaults, vlanMap, read) + perVlan
      && (source != QBridge ==> forall r | r in defaults :: r.vlan == None)
      && AllPlannable(planned) && OnPlanned(perVlan, planned)
      && multiset(read) + multiset(skipped) + multiset(failed) == multiset(planned)
      && (source == BridgeVlan <==> read != [])
      && (read != [] ==> vlanMap == ContextMap)
      && (Clean(Share()) ==>
            && failed == [] && OnPlanned(perVlan, read)
            && OwnExact(world, setup, Prompt(), read, KeysOf(perVlan)))
    }

    lemma NothingFiled(defaults: seq<Row>)
      requires read == [] && skipped == [] && failed == [] && vlanMap != ContextMap && source != BridgeVlan
      requires source != QBridge ==> forall r | r in defaults :: r.vlan == None
      ensures Filed(defaults, defaults, [], [])
    {
      hide KeysOf;
      hide OwnExact;
      hide InTime;
      NothingRead(world, setup);
      NothingPlanned();
      NoDefaultPart(defaults, vlanMap, read);
    }

    /** The Q-BRIDGE branch of `_read`. */
    method ReadQBranch(table: Table, base: Column, vlanFdb: Column, vlanFdbComplete: bool) returns (rows: seq<Row>)
      requires LegalScheme(setup.oids) && Sound(Share()) && stack.None? && late == Late(false, false)
      requires read == [] && skipped == [] && failed == []
      modifies `moment, `problems, `halted, `walks, `created, `asked, `late, `vlanMap, `source
      modifies `stack, `dropped, `portMaps, `parsed, budget
      ensures Keeps(old(Share()), Share(), |rows|, false)
      ensures Allowance() == old(Allowance())
      ensures old(Obedient()) ==> Obedient()
      ensures old(asked) <= asked
      ensures Timely(world, budget.deadline, old(moment), moment, old(late), late)
      ensures source == QBridge && vlanMap != ContextMap && Filed(rows, rows, [], [])
      ensures Clean(Share()) && vlanFdbComplete ==>
                forall mib | Answers(world, DefaultView, mib) && Walks(mib, setup, QTable(setup.oids), table, base)
                             && vlanFdb == MibColumn(mib, setup.oids.vlanFdb) ::
                  DefaultsExact(mib, setup, true, late, rows)
    {
      hide Answers;
      hide Walks;
      hide Accounted;
      hide LegalScheme;
      hide QKeysExact;
      hide Filed;
      hide Keeps;
      hide Moves;
      hide Blame;
      hide Timely;
      hide Heeded;
      hide Drops.Total;
      SchemeLegal(setup.oids);
      ghost var before := Share();
      rows := ReadQBridge(table, base, vlanFdb, vlanFdbComplete);
      NothingFiled(rows);
      OnwardKeeps(before, Share(), |rows|);
    }

    /** The BRIDGE branch of `_read`. */
    method ReadBridgeBranch(base: Column)
      returns (rows: seq<Row>, ghost defaults: seq<Row>, ghost perVlan: seq<Row>, ghost planned: seq<int>)
      requires LegalScheme(setup.oids) && setup.oids.entLogical != [] && Sound(Share()) && stack.None? && !late.stack
      requires read == [] && skipped == [] && failed == [] && vlanMap == NoVlanMap && source == NoSource
      modifies `moment, `problems, `halted, `walks, `created, `asked, `late, `source, `vlanMap, `read, `skipped, `failed
      modifies `stack, `dropped, `portMaps, `parsed, budget
      ensures Keeps(old(Share()), Share(), |defaults| + |perVlan|, options.quick && planned != [])
      ensures Allowance() == old(Allowance())
      ensures old(Obedient() && !halted) ==> Obedient()
      ensures old(asked) <= asked
      ensures old(Obedient() && !halted) && planned != [] ==> NoStop(asked)
      ensures Timely(world, budget.deadline, old(moment), moment, old(late), late)
      ensures Filed(rows, defaults, perVlan, planned) && source != QBridge
      ensures Clean(Share()) ==>
                forall mib | Answers(world, DefaultView, mib) && base == MibColumn(mib, setup.oids.basePort) ::
                  BridgeExact(mib, setup, late, defaults)
      ensures Clean(Share()) && options.contexts != Off ==>
                forall mib | Answers(world, DefaultView, mib) ::
                  Planned(mib, setup, options, entityVlans, Prompt(), planned, read, skipped)
    {
      hide Answers;
      hide Accounted;
      hide LegalScheme;
      hide Plannable;
      hide BridgeExact;
      hide KeysOf;
      hide StackTrue;
      hide VlansExact;
      hide OwnExact;
      hide Planned;
      hide Blame;
      hide Keeps;
      hide Moves;
      hide InTime;
      hide OnVlanOne;
      SchemeLegal(setup.oids);
      NothingRead(world, setup);
      perVlan, planned := [], [];
      ghost var at, first := moment, Share();
      rows := ReadDefault(base);
      defaults := rows;
      OnwardKeeps(first, Share(), |rows|);
      if Stopped() || options.contexts == Off {
        NoDefaultPart(defaults, vlanMap, read);
        return;
      }
      ghost var before, middle := Share(), moment;
      rows, perVlan, planned := PerVlan(rows);
      KeepsOn(first, before, Share(), |defaults|, |perVlan|, options.quick && planned != []);
      OwnExactIf(world, setup, before, Prompt(), read, KeysOf(perVlan), Clean(Share()));
      TimelyWalk(world, budget.deadline, middle, moment, late);
      TimelyThrough(world, budget.deadline, at, middle, moment, old(late), late, late);
    }

    /** `_read`. `defaults` are the rows of the default context, `perVlan` those of the VLANs'
        own contexts, `planned` the VLANs these were planned for. */
    method ReadAll()
      returns (rows: seq<Row>, ghost defaults: seq<Row>, ghost perVlan: seq<Row>, ghost planned: seq<int>)
      requires LegalScheme(setup.oids) && setup.oids.entLogical != [] && Sound(Share()) && stack.None?
      requires late == Late(false, false) && asked == [] && !Stopped()
      requires read == [] && skipped == [] && failed == [] && vlanMap == NoVlanMap && source == NoSource
      modifies this, budget
      ensures Keeps(old(Share()), Share(), |defaults| + |perVlan|, options.quick && planned != [])
      ensures Allowance() == old(Allowance())
      ensures Obedient() && FirstWalks(setup.oids, asked, rows != []) && (planned != [] ==> NoStop(asked))
      ensures source != QBridge && |asked| > 3 ==> !asked[2].Stops()
      ensures Timely(world, budget.deadline, old(moment), moment, old(late), late)
      ensures Filed(rows, defaults, perVlan, planned)
      ensures source == QBridge ==> perVlan == [] && vlanMap != ContextMap
      ensures Clean(Share()) ==>
                forall mib | Answers(world, DefaultView, mib) ::
                  && DefaultsExact(mib, setup, source == QBridge, late, defaults)
                  && (source != QBridge && options.contexts != Off ==>
                        Planned(mib, setup, options, entityVlans, Prompt(), planned, read, skipped))
    {
      hide Answers;
      hide Walks;
      hide Accounted;
      hide LegalScheme;
      hide NoRows;
      hide Filed;
      hide KeysOf;
      hide OnVlanOne;
      hide OwnExact;
      hide DefaultPart;
      hide OnPlanned;
      hide AllPlannable;
      hide Plannable;
      hide BridgeExact;
      hide QKeysExact;
      hide Planned;
      hide Blame;
      hide Keeps;
      hide Moves;
      hide InTime;
      hide Timely;
      hide Drops.Total;
      assert Obedient();
      hide FirstWalks;
      hide Heeded;
      hide NoStop;
      hide Asked.Stops;
      SchemeLegal(setup.oids);
      rows, defaults, perVlan, planned := [], [], [], [];
      ghost var at, before := moment, Share();
      var base, vlanFdb, vlanFdbComplete, table, going := ReadTables();
      ghost var middle, between := moment, Share();
      OnwardKeeps(before, between, 0);
      TimelyWalk(world, budget.deadline, at, middle, late);
      ghost var first := asked;
      if !going {
        NothingFiled([]);
        return;
      }
      FirstWalksMore(setup.oids, first, first, false);
      if table.order != [] {
        rows := ReadQBranch(table, base, vlanFdb, vlanFdbComplete);
        defaults := rows;
        KeepsOn(before, between, Share(), 0, |rows|, false);
        TimelyThrough(world, budget.deadline, at, middle, moment, old(late), old(late), late);
        FirstWalksMore(setup.oids, first, asked, rows != []);
        return;
      }
      if Stopped() {
        NothingFiled([]);
        return;
      }
      Unstopped(asked, halted, budget.truncated);
      ThirdStands(setup.oids, first);
      rows, defaults, perVlan, planned := ReadBridgeBranch(base);
      KeepsOn(before, between, Share(), 0, |defaults| + |perVlan|, options.quick && planned != []);
      FirstWalksMore(setup.oids, first, asked, rows != []);
      TimelyThrough(world, budget.deadline, at, middle, moment, old(late), old(late), late);
    }

    /** `_finish`: one row per VLAN, address and port, and what the read says of itself. */
    method Finish(rows: seq<Row>) returns (unique: seq<Row>, meta: Meta)
      modifies `problems
      ensures unique == FirstOnly(rows)
      ensures problems == old(problems) + if budget.truncated then [BudgetSpent(budget.reason)] else []
      ensures meta == Meta(source, problems == [], budget.truncated, vlanMap, PortMapOf(portMaps, defaultBase),
                           Elements(read), Elements(skipped), Elements(failed), dropped, |unique|)
    {
      unique := Deduplicate(rows);
      if budget.truncated {
        problems := problems + [BudgetSpent(budget.reason)];
      }
      meta := Meta(source, problems == [], budget.truncated, vlanMap, PortMapOf(portMaps, defaultBase),
                   Elements(read), Elements(skipped), Elements(failed), dropped, |unique|);
    }

    /** As the constructor leaves it. */
    ghost predicate Unread()
      reads this, budget
    {
      && problems == [] && walks == [] && parsed == 0 && created == 0 && !halted
      && late == Late(false, false) && asked == []
      && source == NoSource && vlanMap == NoVlanMap && portMaps == [] && stack == None
      && dropped.Total() == 0 && read == [] && skipped == [] && failed == []
      && budget.rowsLeft == ROW_CAP && !budget.truncated && budget.reason == Unset
    }

    /** `run`. Whatever the agent does, and in whatever order its contexts answer:

        - a read is complete exactly when every walk it issued ran to its end, unless it is a
          quick read that left planned VLANs out; and then no context failed and the budget held;
        - the rows the capped walks created and those still allowed make up the cap;
        - every entry parsed became a row of the default context or of a VLAN's, or is counted
          as dropped;
        - each VLAN planned is in exactly one of read, skipped and failed;
        - rows have distinct keys, and every key that was learned is there;
        - with the VLAN map `context` a row is on VLAN 1 or on a planned VLAN, and the default
          context's rows are gone when VLAN 1 was read.

        And against an honest agent a complete read is exact: the Q-BRIDGE table, or the default
        context and every VLAN read; in VLANs and ports if and only if no lookup was left out for
        lack of time that they depend on. The VLANs planned are those its MIB lists, and while no
        reading of the clock showed the deadline all of them up to the cap were read, and no
        lookup was left out. */
    method Run() returns (rows: seq<Row>, meta: Meta, ghost defaults: seq<Row>, ghost perVlan: seq<Row>,
                          ghost planned: seq<int>)
      requires LegalScheme(setup.oids) && setup.oids.entLogical != [] && Unread()
      modifies this, budget
      ensures meta.complete <==> problems == []
      ensures Obedient() && FirstWalks(setup.oids, asked, rows != []) && (planned != [] ==> NoStop(asked))
      ensures source != QBridge && |asked| > 3 ==> !asked[2].Stops()
      ensures meta.complete <==> AllComplete(walks) && !(options.quick && planned != [])
      ensures meta.truncated == budget.truncated
      ensures meta.complete ==> !meta.truncated && meta.failed == {} && AllComplete(walks)
      ensures budget.rowsLeft >= 0 && budget.rowsLeft + created == ROW_CAP
      ensures parsed == |defaults| + |perVlan| + meta.dropped.Total()
      ensures multiset(read) + multiset(skipped) + multiset(failed) == multiset(planned)
      ensures meta.read == Elements(read) && meta.skipped == Elements(skipped) && meta.failed == Elements(failed)
      ensures meta.rows == |rows| && DistinctKeys(rows)
      ensures KeysOf(rows) == KeysOf(DefaultPart(defaults, meta.vlanMap, read) + perVlan)
      ensures meta.vlanMap == ContextMap ==> VlansPlanned(KeysOf(rows), planned)
      ensures AllPlannable(planned)
      ensures meta.source == BridgeVlan <==> read != []
      ensures meta.complete ==> OwnExact(world, setup, Prompt(), read, KeysOf(rows))
      ensures Prompt() ==> late == Late(false, false)
      ensures meta.complete && meta.source != QBridge && options.contexts != Off ==>
                forall mib | Answers(world, DefaultView, mib) ::
                  Planned(mib, setup, options, entityVlans, Prompt(), planned, read, skipped)
      ensures meta.complete ==>
                forall mib | Answers(world, DefaultView, mib) ::
                  && DefaultsExact(mib, setup, meta.source == QBridge, late, defaults)
                  && KeysExact(mib, setup, late, meta.source, meta.vlanMap, meta.read, KeysOf(rows))
      ensures meta.complete ==>
                Promised(world, setup, options, entityVlans, late, Prompt(), meta, KeysOf(rows))
    {
      hide Answers;
      hide LegalScheme;
      hide Plannable;
      hide OnPlanned;
      hide DefaultPart;
      hide FirstOnly;
      hide KeysOf;
      hide Heeded;
      hide FirstWalks;
      hide KeysExact;
      hide Promised;
      hide DefaultsExact;
      hide AllPlannable;
      hide VlansPlanned;
      hide AllComplete;
      hide DistinctKeys;
      hide Keeps;
      hide PortMapOf;
      hide OwnExact;
      hide Planned;
      hide InTime;
      assert Elements([]) == {};
      hide Elements;
      hide Drops.Total;
      ghost var before := Share();
      assert Sound(before) by { FreshIsSound(before); }
      var all;
      all, defaults, perVlan, planned := ReadAll();
      ghost var after := Share();
      rows, meta := Finish(all);
      UniqueKeys(all);
      FirstWalksLess(setup.oids, asked, all != [], rows != []);
      FreshKeeps(before, after, |defaults| + |perVlan|, options.quick && planned != []);
      if problems == [] {
        assert Clean(after);
        PromisesKept(world, setup, options, entityVlans, late, Prompt(), meta, KeysOf(rows), defaults, perVlan, planned,
                     read, skipped);
      }
      ContextRows(defaults, vlanMap, read, perVlan, planned);
    }
  }

  /** A read with an object of its own. */
  method ReadOnce(world: World, setup: Setup, options: Options, entityVlans: Table -> seq<int>, resume: nat -> nat)
    returns (rows: seq<Row>, meta: Meta, ghost late: Late, ghost end: nat)
    requires LegalScheme(setup.oids) && setup.oids.entLogical != []
    ensures meta.rows == |rows| && DistinctKeys(rows)
    ensures meta.complete ==> !meta.truncated && meta.failed == {}
    ensures InTime(world, world.clock(0) + options.seconds, 0, end) ==> late == Late(false, false)
    ensures meta.complete ==>
              Promised(world, setup, options, entityVlans, late,
                       InTime(world, world.clock(0) + options.seconds, 0, end), meta, KeysOf(rows))
  {
    hide Answers;
    hide LegalScheme;
    hide KeysExact;
    hide KeysOf;
    hide DistinctKeys;
    hide DefaultsExact;
    hide OwnExact;
    hide Promised;
    hide Planned;
    hide InTime;
    hide Elements;
    var read := new MacTableRead(world, setup, options, entityVlans, resume);
    ghost var defaults, perVlan, planned;
    rows, meta, defaults, perVlan, planned := read.Run();
    late, end := read.late, read.moment;
  }

  datatype Fetched = NoRequest | Fetched(rows: seq<Row>, meta: Meta)

  /** `fetch_mac_table`: a read of the standard tables, given a profile and the same poll's
      interfaces; nothing only if no request could be built. `late` are the lookups left out for
      lack of time, `end` is the moment after the read.

      Against an honest agent the keys of a complete read are known exactly: those of the
      Q-BRIDGE table, or those of every VLAN read in its own context and beside them those of the
      default context. While no reading of the clock shows the deadline no lookup is left out,
      and all the VLANs the agent lists are read, up to the cap. */
  method FetchMacTable(world: World, requests: bool, interfaces: seq<IfaceRow>, profile: Profile,
                       entityVlans: Table -> seq<int>, resume: nat -> nat)
    returns (r: Fetched, ghost late: Late, ghost end: nat)
    ensures r.NoRequest? <==> !requests
    ensures r.Fetched? ==> r.meta.rows == |r.rows| && DistinctKeys(r.rows)
    ensures r.Fetched? && r.meta.complete ==> !r.meta.truncated && r.meta.failed == {}
    ensures InTime(world, world.clock(0) + OptionsOf(profile).seconds, 0, end) ==> late == Late(false, false)
    ensures r.Fetched? && r.meta.complete ==>
              var options, setup := OptionsOf(profile), Setup(STANDARD, IfacesFrom(interfaces));
              Promised(world, setup, options, entityVlans, late,
                       InTime(world, world.clock(0) + options.seconds, 0, end), r.meta, KeysOf(r.rows))
  {
    hide Answers;
    hide LegalScheme;
    hide KeysExact;
    hide KeysOf;
    hide DistinctKeys;
    hide DefaultsExact;
    hide OwnExact;
    hide ReadExact;
    hide Planned;
    hide InTime;
    hide IfacesFrom;
    hide OptionsOf;
    hide Promised;
    hide Elements;
    r, late, end := NoRequest, Late(false, false), 0;
    if !requests {
      return;
    }
    StandardIsLegal();
    var ifaces := IfacesOf(interfaces);
    var rows, meta;
    rows, meta, late, end := ReadOnce(world, Setup(STANDARD, ifaces), OptionsOf(profile), entityVlans, resume);
    r := Fetched(rows, meta);
  }
}
