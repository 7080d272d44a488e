/**
 The control-message counters of the animation in scratch/nr-x2-handover-measures-cho.cc: a total per node,
 and counts per node and message type. Which messages the total counts and which types are registered is
 decided by two separately written filters; the model proves that they agree, and what the counters show.
 */
module MessageCounters {
  import opened Sequences

  /** The source counts in 32 bits, and its greatest number means "no such node" or "no such counter". */
  const MODULUS: nat := 0x1_0000_0000
  const NO_ID: nat := MODULUS - 1

  datatype MessageType =
    | UlDci | DlDci | DlCqi | Mib | Sib1 | RachPreamble | Rar | Bsr | DlHarq | Sr | Srs
    | Unlisted(number: nat)  // what the enumeration may gain later

  datatype Direction = Tx | Rx

  datatype Options = Options(
    includeRachPreamble: bool, includeRar: bool, includeUlDci: bool,
    includeDlDci: bool, includeDlHarq: bool, includeSr: bool,
    enableTrace: bool, traceStartMs: int, traceEndMs: int,
    ctrlCounter: bool, msgTypeCounter: bool)

  /** A trace callback: when, the direction if it is "TX" or "RX", the node, and the message if its pointer is set. */
  datatype Message = Message(nowMs: int, direction: Option<Direction>, node: nat, content: Option<MessageType>)

  // ----- The two filters -----

  function TypeName(content: Option<MessageType>): string {
    match content
    case None => "NULL"
    case Some(UlDci) => "UL_DCI"
    case Some(DlDci) => "DL_DCI"
    case Some(DlCqi) => "DL_CQI"
    case Some(Mib) => "MIB"
    case Some(Sib1) => "SIB1"
    case Some(RachPreamble) => "RACH_PREAMBLE"
    case Some(Rar) => "RAR"
    case Some(Bsr) => "BSR"
    case Some(DlHarq) => "DL_HARQ"
    case Some(Sr) => "SR"
    case Some(Srs) => "SRS"
    case Some(Unlisted(_)) => "UNKNOWN"
  }

  predicate IsChoRelevant(o: Options, content: Option<MessageType>) {
    match content
    case Some(RachPreamble) => o.includeRachPreamble
    case Some(Rar) => o.includeRar
    case Some(UlDci) => o.includeUlDci
    case Some(DlDci) => o.includeDlDci
    case Some(DlHarq) => o.includeDlHarq
    case Some(Sr) => o.includeSr
    case _ => false
  }

  function When(condition: bool, name: string): seq<string> {
    if condition then [name] else []
  }

  function EnabledTypes(o: Options): seq<string> {
    [] + When(o.includeRachPreamble, "RACH_PREAMBLE") + When(o.includeRar, "RAR")
    + When(o.includeUlDci, "UL_DCI")
    + When(o.includeDlDci, "DL_DCI") + When(o.includeDlHarq, "DL_HARQ") + When(o.includeSr, "SR")
  }

  lemma Append(types: seq<string>, condition: bool, name: string)
    ensures types + When(condition, name) == if condition then types + [name] else types
  {
  }

  method GetEnabledControlMessageTypes(o: Options) returns (types: seq<string>)
    ensures types == EnabledTypes(o)
    ensures NoDuplicates(types)
    ensures forall content: Option<MessageType> :: TypeName(content) in types <==> IsChoRelevant(o, content)
    ensures forall name :: name in types <==>
      || (name == "RACH_PREAMBLE" && o.includeRachPreamble) || (name == "RAR" && o.includeRar)
      || (name == "UL_DCI" && o.includeUlDci) || (name == "DL_DCI" && o.includeDlDci)
      || (name == "DL_HARQ" && o.includeDlHarq) || (name == "SR" && o.includeSr)
  {
    hide NoDuplicates, TypeName, IsChoRelevant, When;
    types := [];
    Append(types, o.includeRachPreamble, "RACH_PREAMBLE");
    if o.includeRachPreamble {
      types := types + ["RACH_PREAMBLE"];
    }
    Append(types, o.includeRar, "RAR");
    if o.includeRar {
      types := types + ["RAR"];
    }
    Append(types, o.includeUlDci, "UL_DCI");
    if o.includeUlDci {
      types := types + ["UL_DCI"];
    }
    Append(types, o.includeDlDci, "DL_DCI");
    if o.includeDlDci {
      types := types + ["DL_DCI"];
    }
    Append(types, o.includeDlHarq, "DL_HARQ");
    if o.includeDlHarq {
      types := types + ["DL_HARQ"];
    }
    Append(types, o.includeSr, "SR");
    if o.includeSr {
      types := types + ["SR"];
    }
    EnabledTypesAreDistinct(o);
    forall content: Option<MessageType> ensures TypeName(content) in types <==> IsChoRelevant(o, content) {
      FiltersAgree(o, content);
    }
    hide EnabledTypes;
    forall name ensures name in types <==>
      || (name == "RACH_PREAMBLE" && o.includeRachPreamble) || (name == "RAR" && o.includeRar)
      || (name == "UL_DCI" && o.includeUlDci) || (name == "DL_DCI" && o.includeDlDci)
      || (name == "DL_HARQ" && o.includeDlHarq) || (name == "SR" && o.includeSr)
    {
      InEnabledTypes(o, name);
    }
  }

  /** Each listed type is known by its name: no other type, and no missing message, has the same. */
  lemma NamesTell(content: Option<MessageType>)
    ensures TypeName(content) == "RACH_PREAMBLE" <==> content == Some(RachPreamble)
    ensures TypeName(content) == "RAR" <==> content == Some(Rar)
    ensures TypeName(content) == "UL_DCI" <==> content == Some(UlDci)
    ensures TypeName(content) == "DL_DCI" <==> content == Some(DlDci)
    ensures TypeName(content) == "DL_HARQ" <==> content == Some(DlHarq)
    ensures TypeName(content) == "SR" <==> content == Some(Sr)
    ensures TypeName(content) == "DL_CQI" <==> content == Some(DlCqi)
    ensures TypeName(content) == "MIB" <==> content == Some(Mib)
    ensures TypeName(content) == "SIB1" <==> content == Some(Sib1)
    ensures TypeName(content) == "BSR" <==> content == Some(Bsr)
    ensures TypeName(content) == "SRS" <==> content == Some(Srs)
    ensures TypeName(content) == "NULL" <==> content == None
    ensures TypeName(content) == "UNKNOWN" <==> content.Some? && content.value.Unlisted?
  {
    NamesAreDistinct();
    assert "SIB1"[0] != "NULL"[0] && "MIB"[0] != "BSR"[0] && "MIB"[0] != "SRS"[0] && "BSR"[0] != "SRS"[0];
  }

  lemma InEnabledTypes(o: Options, name: string)
    ensures name in EnabledTypes(o) <==>
      || (o.includeRachPreamble && name == "RACH_PREAMBLE") || (o.includeRar && name == "RAR")
      || (o.includeUlDci && name == "UL_DCI") || (o.includeDlDci && name == "DL_DCI")
      || (o.includeDlHarq && name == "DL_HARQ") || (o.includeSr && name == "SR")
  {
  }

  /** Names of equal length differ in their first letter, or their fourth. */
  lemma NamesAreDistinct()
    ensures "UL_DCI"[0] != "DL_DCI"[0] && "UL_DCI"[0] != "DL_CQI"[0] && "DL_DCI"[3] != "DL_CQI"[3]
    ensures "RAR"[0] != "MIB"[0] && "RAR"[0] != "BSR"[0] && "RAR"[0] != "SRS"[0]
    ensures "DL_HARQ"[0] != "UNKNOWN"[0]
  {
  }

  /** A message is counted if and only if its type has a counter. */
  lemma FiltersAgree(o: Options, content: Option<MessageType>)
    ensures TypeName(content) in EnabledTypes(o) <==> IsChoRelevant(o, content)
  {
    NamesAreDistinct();
    InEnabledTypes(o, TypeName(content));
    hide EnabledTypes;
  }

  lemma DistinctWithOneMore(types: seq<string>, condition: bool, name: string)
    requires NoDuplicates(types) && name !in types
    ensures NoDuplicates(types + When(condition, name))
  {
    NoDuplicatesAppend(types, name);
    assert types + [] == types;
  }

  lemma EnabledTypesAreDistinct(o: Options)
    ensures NoDuplicates(EnabledTypes(o))
  {
    NamesAreDistinct();
    var types := [] + When(o.includeRachPreamble, "RACH_PREAMBLE");
    assert NoDuplicates(types);
    hide NoDuplicates;
    DistinctWithOneMore(types, o.includeRar, "RAR");
    types := types + When(o.includeRar, "RAR");
    DistinctWithOneMore(types, o.includeUlDci, "UL_DCI");
    types := types + When(o.includeUlDci, "UL_DCI");
    DistinctWithOneMore(types, o.includeDlDci, "DL_DCI");
    types := types + When(o.includeDlDci, "DL_DCI");
    DistinctWithOneMore(types, o.includeDlHarq, "DL_HARQ");
    types := types + When(o.includeDlHarq, "DL_HARQ");
    DistinctWithOneMore(types, o.includeSr, "SR");
  }

  lemma FewEnabledTypes(o: Options)
    ensures |EnabledTypes(o)| <= 6
  {
  }

  // ----- What the counters should show -----

  datatype Counter = Total(direction: Direction) | OfType(direction: Direction, name: string)

  predicate Accepted(o: Options, m: Message) {
    && o.enableTrace
    && !(o.traceStartMs >= 0 && m.nowMs < o.traceStartMs)
    && !(o.traceEndMs >= 0 && m.nowMs > o.traceEndMs)
    && IsChoRelevant(o, m.content)
    && o.ctrlCounter && m.node != NO_ID
  }

  /** Whether the message is one of those that counter c counts for a node. */
  ghost predicate Hits(o: Options, m: Message, c: Counter, node: nat) {
    && Accepted(o, m) && m.node == node && m.direction == Some(c.direction)
    && (c.OfType? ==> o.msgTypeCounter && TypeName(m.content) == c.name)
  }

  ghost function Count(o: Options, history: seq<Message>, c: Counter, node: nat): nat {
    if history == [] then 0
    else Count(o, history[..|history| - 1], c, node) + if Hits(o, history[|history| - 1], c, node) then 1 else 0
  }

  ghost function CountOver(o: Options, history: seq<Message>, types: seq<string>, d: Direction, node: nat): nat {
    if types == [] then 0
    else
      CountOver(o, history, types[..|types| - 1], d, node) + Count(o, history, OfType(d, types[|types| - 1]), node)
  }

  lemma CountStep(o: Options, history: seq<Message>, m: Message, c: Counter, node: nat)
    ensures Count(o, history + [m], c, node) == Count(o, history, c, node) + if Hits(o, m, c, node) then 1 else 0
  {
    PopUndoesPush(history, m);
  }

  /** Among distinct types, one at most counts a message. */
  lemma {:induction false} CountOverStep(o: Options, history: seq<Message>, m: Message, types: seq<string>,
                                        d: Direction, node: nat)
    requires NoDuplicates(types) && o.msgTypeCounter
    ensures CountOver(o, history + [m], types, d, node) == CountOver(o, history, types, d, node)
         + if Hits(o, m, Total(d), node) && TypeName(m.content) in types then 1 else 0
  {
    hide TypeName, Accepted, Count;
    if types != [] {
      var n := |types| - 1;
      CountOverStep(o, history, m, types[..n], d, node);
      CountStep(o, history, m, OfType(d, types[n]), node);
      assert types == types[..n] + [types[n]];
      assert types[n] !in types[..n];
    }
  }

  lemma {:induction false} NothingCounted(o: Options, types: seq<string>, d: Direction, node: nat)
    ensures CountOver(o, [], types, d, node) == 0
  {
    if types != [] {
      NothingCounted(o, types[..|types| - 1], d, node);
    }
  }

  /** Every message in the total is of exactly one registered type. */
  lemma {:induction false} TypesPartitionTheTotal(o: Options, history: seq<Message>, d: Direction, node: nat)
    requires o.msgTypeCounter
    ensures CountOver(o, history, EnabledTypes(o), d, node) == Count(o, history, Total(d), node)
  {
    hide EnabledTypes, TypeName, IsChoRelevant, NoDuplicates, CountOver;
    if history == [] {
      NothingCounted(o, EnabledTypes(o), d, node);
    } else {
      var n := |history| - 1;
      var m := history[n];
      TypesPartitionTheTotal(o, history[..n], d, node);
      EnabledTypesAreDistinct(o);
      CountOverStep(o, history[..n], m, EnabledTypes(o), d, node);
      FiltersAgree(o, m.content);
      assert history == history[..n] + [m];
    }
  }

  // ----- The counters -----

  function Increment(count: nat): nat {
    (count + 1) % MODULUS
  }

  function Lookup<K>(m: map<K, nat>, k: K): nat {
    if k in m then m[k] else 0
  }

  /** The numbers given to the counters of the types: two consecutive ones for each, from `first` on. */
  ghost predicate Numbered(types: seq<string>, first: nat, tx: map<string, nat>, rx: map<string, nat>) {
    && (forall name :: name in tx <==> name in types)
    && (forall name :: name in rx <==> name in types)
    && (forall i :: 0 <= i < |types| ==> tx[types[i]] == first + 2 * i && rx[types[i]] == first + 2 * i + 1)
  }

  /** The animation numbers its counters consecutively. */
  method RegisterTypes(types: seq<string>, first: nat) returns (tx: map<string, nat>, rx: map<string, nat>)
    requires NoDuplicates(types)
    ensures Numbered(types, first, tx, rx)
  {
    tx, rx := map[], map[];
    var next := first;
    for i := 0 to |types|
      invariant next == first + 2 * i
      invariant Numbered(types[..i], first, tx, rx)
    {
      tx := tx[types[i] := next];
      rx := rx[types[i] := next + 1];
      next := next + 2;
    }
    assert types[..|types|] == types;
  }

  class Counters {
    const o: Options
    var ctrlTxCounterId: nat
    var ctrlRxCounterId: nat
    var nodeCtrlTxCount: map<nat, nat>
    var nodeCtrlRxCount: map<nat, nat>
    var msgTypeTxCounterId: map<string, nat>
    var msgTypeRxCounterId: map<string, nat>
    var nodeMsgTypeTxCount: map<nat, map<string, nat>>
    var nodeMsgTypeRxCount: map<nat, map<string, nat>>
    /** The values the animation was last given, by counter and node. */
    var shown: map<(nat, nat), nat>
    ghost var history: seq<Message>

    function TypeCount(counts: map<nat, map<string, nat>>, node: nat, name: string): nat {
      if node in counts then Lookup(counts[node], name) else 0
    }

    ghost function Value(c: Counter, node: nat): nat
      reads `nodeCtrlTxCount, `nodeCtrlRxCount, `nodeMsgTypeTxCount, `nodeMsgTypeRxCount
    {
      match c
      case Total(Tx) => Lookup(nodeCtrlTxCount, node)
      case Total(Rx) => Lookup(nodeCtrlRxCount, node)
      case OfType(Tx, name) => TypeCount(nodeMsgTypeTxCount, node, name)
      case OfType(Rx, name) => TypeCount(nodeMsgTypeRxCount, node, name)
    }

    /** The number the animation gave to a counter. */
    ghost function Id(c: Counter): Option<nat>
      reads `ctrlTxCounterId, `ctrlRxCounterId, `msgTypeTxCounterId, `msgTypeRxCounterId
    {
      match c
      case Total(Tx) => if ctrlTxCounterId != NO_ID then Some(ctrlTxCounterId) else None
      case Total(Rx) => if ctrlRxCounterId != NO_ID then Some(ctrlRxCounterId) else None
      case OfType(Tx, name) => if name in msgTypeTxCounterId then Some(msgTypeTxCounterId[name]) else None
      case OfType(Rx, name) => if name in msgTypeRxCounterId then Some(msgTypeRxCounterId[name]) else None
    }

    /** The counters that exist are the totals and those of the enabled types, and no two have the same number. */
    ghost predicate Registered()
      reads `ctrlTxCounterId, `ctrlRxCounterId, `msgTypeTxCounterId, `msgTypeRxCounterId
    {
      && (forall c: Counter :: Id(c).Some? <==>
           if c.Total? then o.ctrlCounter else o.msgTypeCounter && c.name in EnabledTypes(o))
      && (forall c: Counter, c': Counter :: Id(c).Some? && Id(c) == Id(c') ==> c == c')
    }

    /** The animation shows the value of every counter it has. */
    ghost predicate Displayed()
      reads `nodeCtrlTxCount, `nodeCtrlRxCount, `nodeMsgTypeTxCount, `nodeMsgTypeRxCount
      reads `ctrlTxCounterId, `ctrlRxCounterId, `msgTypeTxCounterId, `msgTypeRxCounterId
      reads `shown
    {
      forall c: Counter, node: nat :: Id(c).Some? ==> Lookup(shown, (Id(c).value, node)) == Value(c, node)
    }

    /** Every counter holds the number of messages it should have counted, in 32 bits, and the animation shows it. */
    ghost predicate Valid()
      reads this
    {
      && Registered()
      && Displayed()
      && forall c: Counter, node: nat :: Value(c, node) == Count(o, history, c, node) % MODULUS
    }

    /** Setting up the animation, before the simulation starts, when it has `first` counters already. */
    constructor (options: Options, first: nat)
      requires first + 14 < NO_ID
      ensures o == options && history == []
      ensures Valid()
      ensures forall c: Counter, node: nat :: Value(c, node) == 0
    {
      hide EnabledTypes, Registered;
      var txId, rxId, next := NO_ID, NO_ID, first;
      if options.ctrlCounter {
        txId, rxId, next := first, first + 1, first + 2;
      }
      var types := GetEnabledControlMessageTypes(options);
      var tx: map<string, nat>, rx: map<string, nat> := map[], map[];
      if options.msgTypeCounter {
        tx, rx := RegisterTypes(types, next);
      }
      o, history, shown := options, [], map[];
      ctrlTxCounterId, ctrlRxCounterId, nodeCtrlTxCount, nodeCtrlRxCount := txId, rxId, map[], map[];
      msgTypeTxCounterId, msgTypeRxCounterId, nodeMsgTypeTxCount, nodeMsgTypeRxCount := tx, rx, map[], map[];
      new;
      RegisteredAtFirst(first);
    }

    lemma RegisteredAtFirst(first: nat)
      requires first + 14 < NO_ID
      requires if o.ctrlCounter then ctrlTxCounterId == first && ctrlRxCounterId == first + 1
               else ctrlTxCounterId == ctrlRxCounterId == NO_ID
      requires if o.msgTypeCounter
               then Numbered(EnabledTypes(o), first + if o.ctrlCounter then 2 else 0,
                             msgTypeTxCounterId, msgTypeRxCounterId)
               else msgTypeTxCounterId == msgTypeRxCounterId == map[]
      ensures Registered()
    {
      FewEnabledTypes(o);
      hide EnabledTypes;
    }

    /** The effect of counting one message: counter c goes up by one, the animation shows it, nothing else changes. */
    twostate predicate Bumped(c: Counter, node: nat)
      reads this
    {
      && (forall c': Counter :: Id(c') == old(Id(c')))
      && (forall c': Counter, node': nat ::
           Value(c', node') ==
             if c' == c && node' == node then Increment(old(Value(c, node))) else old(Value(c', node')))
      && (forall id: nat, node': nat :: Lookup(shown, (id, node')) ==
           if Some(id) == Id(c) && node' == node then Value(c, node) else old(Lookup(shown, (id, node'))))
    }

    method BumpTotal(d: Direction, node: nat)
      modifies `nodeCtrlTxCount, `nodeCtrlRxCount, `shown
      ensures if Id(Total(d)).Some? then Bumped(Total(d), node) else unchanged(this)
    {
      match d
      case Tx =>
        if ctrlTxCounterId != NO_ID {
          var value := Increment(Lookup(nodeCtrlTxCount, node));
          nodeCtrlTxCount := nodeCtrlTxCount[node := value];
          shown := shown[(ctrlTxCounterId, node) := value];
        }
      case Rx =>
        if ctrlRxCounterId != NO_ID {
          var value := Increment(Lookup(nodeCtrlRxCount, node));
          nodeCtrlRxCount := nodeCtrlRxCount[node := value];
          shown := shown[(ctrlRxCounterId, node) := value];
        }
    }

    function WithCount(counts: map<nat, map<string, nat>>, node: nat, name: string, value: nat)
      : (r: map<nat, map<string, nat>>)
      ensures forall node', name' ::
        TypeCount(r, node', name') == if node' == node && name' == name then value else TypeCount(counts, node', name')
    {
      var ofNode := if node in counts then counts[node] else map[];
      counts[node := ofNode[name := value]]
    }

    method BumpType(d: Direction, node: nat, name: string)
      modifies `nodeMsgTypeTxCount, `nodeMsgTypeRxCount, `shown
      ensures if Id(OfType(d, name)).Some? then Bumped(OfType(d, name), node) else unchanged(this)
    {
      match d
      case Tx =>
        if name in msgTypeTxCounterId {
          var value := Increment(TypeCount(nodeMsgTypeTxCount, node, name));
          nodeMsgTypeTxCount := WithCount(nodeMsgTypeTxCount, node, name, value);
          shown := shown[(msgTypeTxCounterId[name], node) := value];
        }
      case Rx =>
        if name in msgTypeRxCounterId {
          var value := Increment(TypeCount(nodeMsgTypeRxCount, node, name));
          nodeMsgTypeRxCount := WithCount(nodeMsgTypeRxCount, node, name, value);
          shown := shown[(msgTypeRxCounterId[name], node) := value];
        }
    }

    /** An accepted message goes to the total and to the counter of its type, if they exist. */
    method CountAccepted(d: Direction, node: nat, name: string)
      requires Registered() && Displayed()
      modifies `nodeCtrlTxCount, `nodeCtrlRxCount, `nodeMsgTypeTxCount, `nodeMsgTypeRxCount, `shown
      ensures Registered() && Displayed()
      ensures forall c: Counter :: Id(c) == old(Id(c))
      ensures forall c: Counter, node': nat ::
        var counted := (c == Total(d) || c == OfType(d, name)) && node' == node && Id(c).Some?;
        Value(c, node') == if counted then Increment(old(Value(c, node'))) else old(Value(c, node'))
    {
      hide EnabledTypes, TypeName, IsChoRelevant, Increment, TypeCount, Lookup, Value, Id;
      BumpTotal(d, node);
      assert Registered() && Displayed();
      if o.msgTypeCounter {
        BumpType(d, node, name);
      }
    }

    /** A trace callback. Whatever it is given, the counters still say what they should of all callbacks so far. */
    method EmitMacPhyCtrlMessage(m: Message)
      requires Valid()
      modifies this
      ensures Valid() && history == old(history) + [m]
      ensures forall c: Counter :: Id(c) == old(Id(c))
      ensures forall c: Counter, node: nat ::
        var counted :=
          && o.enableTrace && o.ctrlCounter && m.node == node != NO_ID && m.direction == Some(c.direction)
          && (o.traceStartMs < 0 || o.traceStartMs <= m.nowMs) && (o.traceEndMs < 0 || m.nowMs <= o.traceEndMs)
          && IsChoRelevant(o, m.content) && (c.OfType? ==> o.msgTypeCounter && TypeName(m.content) == c.name);
        Value(c, node) == if counted then (old(Value(c, node)) + 1) % 0x1_0000_0000 else old(Value(c, node))
    {
      hide EnabledTypes, TypeName, IsChoRelevant, Count, TypeCount, Lookup, Displayed, Value, Id;
      history := history + [m];
      forall c: Counter, node: nat
        ensures Count(o, history, c, node) % MODULUS
             == if Hits(o, m, c, node) then Increment(old(Value(c, node))) else old(Value(c, node))
      {
        CountStep(o, old(history), m, c, node);
        IncrementMod(Count(o, old(history), c, node));
        assert old(Value(c, node)) == Count(o, old(history), c, node) % MODULUS;
      }
      if !o.enableTrace {
        return;
      }
      if o.traceStartMs >= 0 && m.nowMs < o.traceStartMs {
        return;
      }
      if o.traceEndMs >= 0 && m.nowMs > o.traceEndMs {
        return;
      }
      if !IsChoRelevant(o, m.content) {
        return;
      }
      FiltersAgree(o, m.content);
      if o.ctrlCounter && m.node != NO_ID && m.direction.Some? {
        CountAccepted(m.direction.value, m.node, TypeName(m.content));
      }
    }

    /** The sum of a node's counts over the given types. */
    ghost function SumOver(types: seq<string>, d: Direction, node: nat): nat
      reads `nodeCtrlTxCount, `nodeCtrlRxCount, `nodeMsgTypeTxCount, `nodeMsgTypeRxCount
    {
      if types == [] then 0
      else SumOver(types[..|types| - 1], d, node) + Value(OfType(d, types[|types| - 1]), node)
    }

    lemma {:induction false} SumIsCount(types: seq<string>, d: Direction, node: nat)
      requires Valid()
      ensures SumOver(types, d, node) == CountOver(o, history, types, d, node)
           - MODULUS * WrapsOver(o, history, types, d, node)
    {
      if types != [] {
        hide Displayed, Registered, Count, Value;
        var c := OfType(d, types[|types| - 1]);
        SumIsCount(types[..|types| - 1], d, node);
        assert Value(c, node) == Count(o, history, c, node) % MODULUS;
      }
    }

    /**
     With both kinds of counters on, a node's total is the sum of its counts by type, modulo 2^32. It is the sum
     itself if and only if the total has wrapped around as often as the counters of the types together, as it
     has when fewer than 2^32 of the node's messages were counted.
     */
    lemma TotalIsSumOfTypes(d: Direction, node: nat)
      requires Valid() && o.msgTypeCounter
      ensures Value(Total(d), node) == SumOver(EnabledTypes(o), d, node) % MODULUS
      ensures Value(Total(d), node) == SumOver(EnabledTypes(o), d, node)
         <==> Count(o, history, Total(d), node) / MODULUS == WrapsOver(o, history, EnabledTypes(o), d, node)
      ensures Count(o, history, Total(d), node) < MODULUS ==>
        Value(Total(d), node) == SumOver(EnabledTypes(o), d, node) == Count(o, history, Total(d), node)
    {
      hide EnabledTypes, Displayed, Registered, Value;
      var types, total := EnabledTypes(o), Count(o, history, Total(d), node);
      SumIsCount(types, d, node);
      TypesPartitionTheTotal(o, history, d, node);
      WrapsAtMost(o, history, types, d, node);
      assert Value(Total(d), node) == total % MODULUS;
      hide Count, SumOver, WrapsOver;
      SameRemainder(total, WrapsOver(o, history, types, d, node));
    }

    /** A burst of equal messages. */
    method EmitRepeatedly(m: Message, times: nat)
      requires Valid()
      modifies this
      ensures Valid() && history == old(history) + Repeated(m, times)
    {
      hide Valid;
      assert history == old(history) + Repeated(m, 0);
      for i := 0 to times
        invariant Valid() && history == old(history) + Repeated(m, i)
      {
        EmitMacPhyCtrlMessage(m);
        assert old(history) + Repeated(m, i) + [m] == old(history) + Repeated(m, i + 1);
      }
    }
  }

  lemma IncrementMod(n: nat)
    ensures Increment(n % MODULUS) == (n + 1) % MODULUS
  {
  }

  /** How often the counters of the types have wrapped around. */
  ghost function WrapsOver(o: Options, history: seq<Message>, types: seq<string>, d: Direction, node: nat): nat {
    if types == [] then 0
    else
      WrapsOver(o, history, types[..|types| - 1], d, node)
      + Count(o, history, OfType(d, types[|types| - 1]), node) / MODULUS
  }

  lemma {:induction false} WrapsAtMost(o: Options, history: seq<Message>, types: seq<string>, d: Direction, node: nat)
    ensures MODULUS * WrapsOver(o, history, types, d, node) <= CountOver(o, history, types, d, node)
  {
    hide Count;
    if types != [] {
      WrapsAtMost(o, history, types[..|types| - 1], d, node);
    }
  }

  lemma SameRemainder(total: nat, wraps: nat)
    requires MODULUS * wraps <= total
    ensures total % MODULUS == (total - MODULUS * wraps) % MODULUS
    ensures total % MODULUS == total - MODULUS * wraps <==> total / MODULUS == wraps
    ensures total < MODULUS ==> wraps == 0
  {
    assert total == MODULUS * (total / MODULUS) + total % MODULUS;
    var rest := total - MODULUS * wraps;
    assert rest == MODULUS * (total / MODULUS - wraps) + total % MODULUS;
  }

  // ----- A total that wraps around -----

  function Repeated(m: Message, times: nat): seq<Message> {
    seq(times, _ => m)
  }

  lemma RepeatedOnceMore(before: seq<Message>, m: Message, times: nat)
    requires times > 0
    ensures before + Repeated(m, times) == before + Repeated(m, times - 1) + [m]
    ensures before + Repeated(m, 0) == before
  {
  }

  lemma {:induction false} CountRepeated(o: Options, before: seq<Message>, m: Message, times: nat, c: Counter,
                                         node: nat)
    ensures Count(o, before + Repeated(m, times), c, node)
         == Count(o, before, c, node) + if Hits(o, m, c, node) then times else 0
  {
    hide Hits, Count, Repeated;
    RepeatedOnceMore(before, m, if times == 0 then 1 else times);
    if times > 0 {
      CountRepeated(o, before, m, times - 1, c, node);
      CountStep(o, before + Repeated(m, times - 1), m, c, node);
    }
  }

  const HALF: nat := 0x8000_0000

  const TWO_TYPES: Options := Options(true, true, false, false, false, false, true, -1, -1, true, true)

  const PREAMBLE: Message := Message(0, Some(Tx), 0, Some(RachPreamble))

  const RESPONSE: Message := Message(0, Some(Tx), 0, Some(Rar))

  function TwoBursts(): seq<Message> {
    Repeated(PREAMBLE, HALF) + Repeated(RESPONSE, HALF)
  }

  lemma TwoEnabledTypes()
    ensures EnabledTypes(TWO_TYPES) == ["RACH_PREAMBLE", "RAR"]
  {
  }

  lemma CountsOfBursts(c: Counter)
    ensures Count(TWO_TYPES, TwoBursts(), c, 0) ==
      (if Hits(TWO_TYPES, PREAMBLE, c, 0) then HALF else 0) + if Hits(TWO_TYPES, RESPONSE, c, 0) then HALF else 0
  {
    hide Hits, Repeated;
    CountRepeated(TWO_TYPES, [], PREAMBLE, HALF, c, 0);
    CountRepeated(TWO_TYPES, Repeated(PREAMBLE, HALF), RESPONSE, HALF, c, 0);
    assert [] + Repeated(PREAMBLE, HALF) == Repeated(PREAMBLE, HALF);
  }

  lemma HitsOfBursts()
    ensures Hits(TWO_TYPES, PREAMBLE, Total(Tx), 0) && Hits(TWO_TYPES, RESPONSE, Total(Tx), 0)
    ensures Hits(TWO_TYPES, PREAMBLE, OfType(Tx, "RACH_PREAMBLE"), 0)
    ensures !Hits(TWO_TYPES, RESPONSE, OfType(Tx, "RACH_PREAMBLE"), 0)
    ensures !Hits(TWO_TYPES, PREAMBLE, OfType(Tx, "RAR"), 0) && Hits(TWO_TYPES, RESPONSE, OfType(Tx, "RAR"), 0)
  {
    assert |"RACH_PREAMBLE"| != |"RAR"|;
  }

  lemma TwoBurstsWrap(counters: Counters)
    requires counters.Valid() && counters.o == TWO_TYPES && counters.history == TwoBursts()
    ensures counters.Value(Total(Tx), 0) == 0 && counters.SumOver(EnabledTypes(counters.o), Tx, 0) == MODULUS
  {
    var first, second := OfType(Tx, "RACH_PREAMBLE"), OfType(Tx, "RAR");
    TwoEnabledTypes();
    HitsOfBursts();
    CountsOfBursts(Total(Tx));
    CountsOfBursts(first);
    CountsOfBursts(second);
    hide Count, Hits, TwoBursts, EnabledTypes;
    SumOfTwo(counters, "RACH_PREAMBLE", "RAR");
    assert counters.Value(Total(Tx), 0) == (HALF + HALF) % MODULUS;
    assert counters.Value(first, 0) == HALF % MODULUS && counters.Value(second, 0) == HALF % MODULUS;
  }

  lemma SumOfTwo(counters: Counters, x: string, y: string)
    ensures counters.SumOver([x, y], Tx, 0) == counters.Value(OfType(Tx, x), 0) + counters.Value(OfType(Tx, y), 0)
  {
    hide Counters.Value;
    assert [x, y][..1] == [x] && [x][..0] == [];
    assert counters.SumOver([x], Tx, 0) == counters.SumOver([], Tx, 0) + counters.Value(OfType(Tx, x), 0);
  }

  /** Half of 2^32 messages of each of two types: the total is 0 again, but the sum of the types is 2^32. */
  method WrapTotal() returns (counters: Counters)
    ensures fresh(counters) && counters.Valid() && counters.o == TWO_TYPES && counters.history == TwoBursts()
    ensures counters.Value(Total(Tx), 0) == 0 && counters.SumOver(EnabledTypes(counters.o), Tx, 0) == MODULUS
  {
    hide Repeated;
    counters := new Counters(TWO_TYPES, 0);
    counters.EmitRepeatedly(PREAMBLE, HALF);
    counters.EmitRepeatedly(RESPONSE, HALF);
    assert counters.history == TwoBursts();
    TwoBurstsWrap(counters);
  }
}
