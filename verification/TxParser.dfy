/** `MethodFilter` and `TxParserService.parse`: a meta-transaction is flattened and every child must
    call an allowed method. */
module TxParser {
  import opened Common
  import opened Hex
  import opened BatchDecoding

  datatype Method = Method(methodName: string, contractName: string)

  datatype TransactionWithMetadata =
    TransactionWithMetadata(raw: RawTransaction, methodId: string, methodName: string, contractName: string)

  /** A contract wrapper: its address and the selector of each of its methods. */
  datatype Wrapper = Wrapper(address: string, methodIds: map<string, string>)

  function BuildKey(address: string, methodId: string): string {
    NormalizeAddress(address) + ":" + NormalizeMethodId(methodId)
  }

  /** A pair the filter was told to allow. */
  datatype Allowed = Allowed(address: string, methodId: string, target: Method)

  /** `addContract` as the list of pairs it adds, in order. */
  function Additions(name: string, wrapper: Wrapper, names: seq<string>): seq<Allowed>
    requires forall i :: 0 <= i < |names| ==> names[i] in wrapper.methodIds
  {
    seq(|names|, i requires 0 <= i < |names| =>
      Allowed(wrapper.address, wrapper.methodIds[names[i]], Method(names[i], name)))
  }

  /** The map after adding the pairs one by one; a later pair overrides an earlier one. */
  function Insert(methods: map<string, Method>, added: seq<Allowed>): map<string, Method> {
    if added == [] then methods
    else
      var last := added[|added| - 1];
      Insert(methods, added[..|added| - 1])[BuildKey(last.address, last.methodId) := last.target]
  }

  /** `find`, up to the lookup; None: the destination is undefined, on which the source throws. */
  function Lookup(methods: map<string, Method>, raw: RawTransaction): Option<Option<TransactionWithMetadata>> {
    if raw.destination.None? then None
    else
      var methodId := ExtractMethodId(raw.data);
      var key := BuildKey(raw.destination.value, methodId);
      Some(if key in methods
           then Some(TransactionWithMetadata(raw, methodId, methods[key].methodName, methods[key].contractName))
           else None)
  }

  lemma InsertOne(methods: map<string, Method>, a: seq<Allowed>, x: Allowed)
    ensures Insert(methods, a + [x]) == Insert(methods, a)[BuildKey(x.address, x.methodId) := x.target]
  {
    var all := a + [x];
    assert all[..|all| - 1] == a && all[|all| - 1] == x;
  }

  /** The key of a wrapper's method: address and selector, both normalised. */
  function KeyOf(wrapper: Wrapper, name: string): string
    requires name in wrapper.methodIds
  {
    NormalizeAddress(wrapper.address) + ":" + NormalizeMethodId(wrapper.methodIds[name])
  }

  function Keys(wrapper: Wrapper, names: seq<string>): seq<string>
    requires forall i :: 0 <= i < |names| ==> names[i] in wrapper.methodIds
  {
    seq(|names|, i requires 0 <= i < |names| => KeyOf(wrapper, names[i]))
  }

  function Targets(name: string, names: seq<string>): seq<Method> {
    seq(|names|, i requires 0 <= i < |names| => Method(names[i], name))
  }

  /** The filter after adding some keys: each of them is in it, with the last target it was given, and
      everything else is as before. */
  ghost predicate AddedTo(before: map<string, Method>, keys: seq<string>, targets: seq<Method>,
                          after: map<string, Method>)
    requires |keys| == |targets|
  {
    && (forall key :: key in after <==> key in before || key in keys)
    && (forall key :: key in before && key !in keys ==> after[key] == before[key])
    && (forall i :: 0 <= i < |keys| && (forall j :: i < j < |keys| ==> keys[j] != keys[i]) ==>
          after[keys[i]] == targets[i])
  }

  /** One more key. */
  lemma AddOne(before: map<string, Method>, keys: seq<string>, targets: seq<Method>, after: map<string, Method>,
               key: string, target: Method)
    requires |keys| == |targets| && AddedTo(before, keys, targets, after)
    ensures AddedTo(before, keys + [key], targets + [target], after[key := target])
  {
    var more := keys + [key];
    assert forall k :: k in more <==> k in keys || k == key;
    forall i | 0 <= i < |more| && (forall j :: i < j < |more| ==> more[j] != more[i])
      ensures after[key := target][more[i]] == (targets + [target])[i]
    {
      if i < |keys| {
        assert more[|keys|] != more[i];
        assert forall j :: i < j < |keys| ==> more[j] == keys[j];
      }
    }
  }

  /** What one more name adds. */
  lemma OneMoreName(name: string, wrapper: Wrapper, front: seq<string>, last: string)
    requires forall i :: 0 <= i < |front| ==> front[i] in wrapper.methodIds
    requires last in wrapper.methodIds
    ensures var names := front + [last];
      && (forall i :: 0 <= i < |names| ==> names[i] in wrapper.methodIds)
      && Keys(wrapper, names) == Keys(wrapper, front) + [KeyOf(wrapper, last)]
      && Targets(name, names) == Targets(name, front) + [Method(last, name)]
      && Additions(name, wrapper, names) == Additions(name, wrapper, front)
           + [Allowed(wrapper.address, wrapper.methodIds[last], Method(last, name))]
  {
  }

  lemma {:induction false} InsertAdds(before: map<string, Method>, name: string, wrapper: Wrapper, names: seq<string>)
    requires forall i :: 0 <= i < |names| ==> names[i] in wrapper.methodIds
    ensures AddedTo(before, Keys(wrapper, names), Targets(name, names), Insert(before, Additions(name, wrapper, names)))
  {
    if names == [] {
    } else {
      var front, last := names[..|names| - 1], names[|names| - 1];
      assert names == front + [last];
      var added := Additions(name, wrapper, front);
      OneMoreName(name, wrapper, front, last);
      InsertAdds(before, name, wrapper, front);
      InsertOne(before, added, Allowed(wrapper.address, wrapper.methodIds[last], Method(last, name)));
      AddOne(before, Keys(wrapper, front), Targets(name, front), Insert(before, added),
             KeyOf(wrapper, last), Method(last, name));
    }
  }

  class MethodFilter {
    var methods: map<string, Method>

    constructor ()
      ensures methods == map[]
    {
      methods := map[];
    }

    method AddContract(name: string, wrapper: Wrapper, names: seq<string>)
      requires forall i :: 0 <= i < |names| ==> names[i] in wrapper.methodIds
      modifies this
      ensures AddedTo(old(methods), Keys(wrapper, names), Targets(name, names), methods)
      ensures methods == Insert(old(methods), Additions(name, wrapper, names))
    {
      ghost var added := Additions(name, wrapper, names);
      for i := 0 to |names|
        invariant methods == Insert(old(methods), added[..i])
      {
        assert added[..i + 1] == added[..i] + [added[i]];
        InsertOne(old(methods), added[..i], added[i]);
        var methodId := wrapper.methodIds[names[i]];
        methods := methods[BuildKey(wrapper.address, methodId) := Method(names[i], name)];
      }
      assert added[..|names|] == added;
      InsertAdds(old(methods), name, wrapper, names);
    }
  }

  /** Filling a filter in several calls is the same as filling it in one. */
  lemma {:induction false} InsertInsert(methods: map<string, Method>, a: seq<Allowed>, b: seq<Allowed>)
    ensures Insert(Insert(methods, a), b) == Insert(methods, a + b)
  {
    if b == [] {
      assert a + b == a;
    } else {
      var front, x := b[..|b| - 1], b[|b| - 1];
      var key := BuildKey(x.address, x.methodId);
      calc {
        Insert(Insert(methods, a), b);
        { assert b == front + [x]; InsertOne(Insert(methods, a), front, x); }
        Insert(Insert(methods, a), front)[key := x.target];
        { InsertInsert(methods, a, front); }
        Insert(methods, a + front)[key := x.target];
        { assert a + b == (a + front) + [x]; InsertOne(methods, a + front, x); }
        Insert(methods, a + b);
      }
    }
  }

  /** The methods of each contract that the default filter allows. */
  predicate HasMethods(wrapper: Wrapper, names: seq<string>) {
    forall i :: 0 <= i < |names| ==> names[i] in wrapper.methodIds
  }

  const ATTESTATIONS := ["selectIssuers", "complete"]
  const ACCOUNTS := ["setAccount"]
  const STABLE_TOKEN := ["approve", "transfer"]
  const ESCROW := ["withdraw"]

  /** The pairs that the default filter is told to allow, in order. */
  function DefaultAdditions(attestations: Wrapper, accounts: Wrapper, cUsd: Wrapper, cEur: Wrapper, escrow: Wrapper)
    : seq<Allowed>
    requires HasMethods(attestations, ATTESTATIONS) && HasMethods(accounts, ACCOUNTS)
    requires HasMethods(cUsd, STABLE_TOKEN) && HasMethods(cEur, STABLE_TOKEN) && HasMethods(escrow, ESCROW)
  {
    Additions("Attestations", attestations, ATTESTATIONS)
    + Additions("Accounts", accounts, ACCOUNTS)
    + Additions("StableToken", cUsd, STABLE_TOKEN)
    + Additions("StableTokenEUR", cEur, STABLE_TOKEN)
    + Additions("Escrow", escrow, ESCROW)
  }

  /** The filter that `onModuleInit` builds with one call per contract. */
  method DefaultFilter(attestations: Wrapper, accounts: Wrapper, cUsd: Wrapper, cEur: Wrapper, escrow: Wrapper)
    returns (filter: MethodFilter)
    requires HasMethods(attestations, ATTESTATIONS) && HasMethods(accounts, ACCOUNTS)
    requires HasMethods(cUsd, STABLE_TOKEN) && HasMethods(cEur, STABLE_TOKEN) && HasMethods(escrow, ESCROW)
    ensures fresh(filter)
    ensures filter.methods == Insert(map[], DefaultAdditions(attestations, accounts, cUsd, cEur, escrow))
  {
    filter := new MethodFilter();
    var a := Additions("Attestations", attestations, ATTESTATIONS);
    var b := Additions("Accounts", accounts, ACCOUNTS);
    var c := Additions("StableToken", cUsd, STABLE_TOKEN);
    var d := Additions("StableTokenEUR", cEur, STABLE_TOKEN);
    var e := Additions("Escrow", escrow, ESCROW);
    filter.AddContract("Attestations", attestations, ATTESTATIONS);
    filter.AddContract("Accounts", accounts, ACCOUNTS);
    InsertInsert(map[], a, b);
    filter.AddContract("StableToken", cUsd, STABLE_TOKEN);
    InsertInsert(map[], a + b, c);
    filter.AddContract("StableTokenEUR", cEur, STABLE_TOKEN);
    InsertInsert(map[], a + b + c, d);
    filter.AddContract("Escrow", escrow, ESCROW);
    InsertInsert(map[], a + b + c + d, e);
  }

  // ----- What a filter allows

  predicate NoColon(s: string) {
    forall i :: 0 <= i < |s| ==> s[i] != ':'
  }

  /** Addresses and selectors of wrappers are hexadecimal, so they contain no colon. */
  predicate WellFormed(added: seq<Allowed>) {
    forall i :: 0 <= i < |added| ==> NoColon(added[i].address) && NoColon(added[i].methodId)
  }

  /** The transaction calls the allowed pair, up to letter case and a leading 0x. */
  predicate Matches(raw: RawTransaction, a: Allowed) {
    && raw.destination.Some?
    && NormalizeAddress(raw.destination.value) == NormalizeAddress(a.address)
    && NormalizeMethodId(ExtractMethodId(raw.data)) == NormalizeMethodId(a.methodId)
  }

  lemma NormalizedNoColon(s: string)
    requires NoColon(s)
    ensures NoColon(NormalizeAddress(s)) && NoColon(NormalizeMethodId(s))
  {
  }

  lemma OnlyColon(a: string, b: string, i: nat)
    requires NoColon(a) && NoColon(b) && i < |a + ":" + b| && (a + ":" + b)[i] == ':'
    ensures i == |a|
  {
  }

  lemma SplitAtColon(a: string, b: string, c: string, d: string)
    requires NoColon(a) && NoColon(b) && a + ":" + b == c + ":" + d
    ensures a == c && b == d
  {
    var l, r := a + ":" + b, c + ":" + d;
    OnlyColon(a, b, |c|);
    assert a == l[..|a|] && c == r[..|c|];
    assert b == l[|a| + 1..] && d == r[|c| + 1..];
  }

  /** Keys are equal exactly when both normalised parts are. */
  lemma KeysAgree(raw: RawTransaction, a: Allowed)
    requires raw.destination.Some? && NoColon(a.address) && NoColon(a.methodId)
    ensures BuildKey(raw.destination.value, ExtractMethodId(raw.data)) == BuildKey(a.address, a.methodId)
       <==> Matches(raw, a)
  {
    NormalizedNoColon(a.address);
    NormalizedNoColon(a.methodId);
    if BuildKey(raw.destination.value, ExtractMethodId(raw.data)) == BuildKey(a.address, a.methodId) {
      SplitAtColon(NormalizeAddress(a.address), NormalizeMethodId(a.methodId),
                   NormalizeAddress(raw.destination.value), NormalizeMethodId(ExtractMethodId(raw.data)));
    }
  }

  /** The last element of a list that satisfies p, if any. */
  function LastWhere<T>(s: seq<T>, p: T -> bool): Option<T> {
    if s == [] then None
    else if p(s[|s| - 1]) then Some(s[|s| - 1])
    else LastWhere(s[..|s| - 1], p)
  }

  lemma {:induction false} LastWhereExact<T>(s: seq<T>, p: T -> bool)
    ensures LastWhere(s, p).None? <==> forall i :: 0 <= i < |s| ==> !p(s[i])
    ensures LastWhere(s, p).Some? ==>
      exists i :: 0 <= i < |s| && s[i] == LastWhere(s, p).value && p(s[i]) && forall j :: i < j < |s| ==> !p(s[j])
  {
    if s == [] {
    } else {
      var n := |s| - 1;
      LastWhereExact(s[..n], p);
      if p(s[n]) {
        assert s[n] == LastWhere(s, p).value;
      } else if LastWhere(s[..n], p).Some? {
        var i :| 0 <= i < n && s[..n][i] == LastWhere(s[..n], p).value && p(s[..n][i])
                 && forall j :: i < j < n ==> !p(s[..n][j]);
        assert forall j :: i < j < n ==> s[..n][j] == s[j];
        assert s[i] == LastWhere(s, p).value;
      }
    }
  }

  /** The last added pair that matches, if any. */
  function LastMatch(raw: RawTransaction, added: seq<Allowed>): Option<Allowed> {
    LastWhere(added, (a: Allowed) => Matches(raw, a))
  }

  function Metadata(raw: RawTransaction, a: Allowed): TransactionWithMetadata {
    TransactionWithMetadata(raw, ExtractMethodId(raw.data), a.target.methodName, a.target.contractName)
  }

  /** The filter is sound and complete: it allows a transaction exactly when an added pair matches it
      up to case and 0x, and then names the method of the last such pair. */
  lemma {:induction false} FilterSoundComplete(added: seq<Allowed>, raw: RawTransaction)
    requires WellFormed(added) && raw.destination.Some?
    ensures Lookup(Insert(map[], added), raw)
         == Some(match LastMatch(raw, added)
                 case None => None
                 case Some(a) => Some(Metadata(raw, a)))
  {
    if added == [] {
    } else {
      FilterSoundComplete(added[..|added| - 1], raw);
      KeysAgree(raw, added[|added| - 1]);
    }
  }

  // ----- Parsing

  datatype ParseError =
    | InvalidRootTransaction(tx: RawTransaction)
    | TransactionDecodeError(tx: RawTransaction)
    | TransactionNotAllowed(tx: RawTransaction)

  /** `Threw`: the source rejects with an exception instead of returning a Result. */
  datatype Outcome = Parsed(children: seq<TransactionWithMetadata>) | Refused(error: ParseError) | Threw

  predicate IsCallTo(tx: RawTransaction, wallet: Wrapper, methodName: string)
    requires methodName in wallet.methodIds
  {
    && tx.destination.Some?
    && NormalizeAddress(tx.destination.value) == NormalizeAddress(wallet.address)
    && ExtractMethodId(tx.data) == NormalizeMethodId(wallet.methodIds[methodName])
  }

  /** `decode`: the inputs, if the decoder knows the method and the number of inputs is right. */
  function DecodeCall(decoded: Decoded, methodName: string, expected: nat): Option<Inputs> {
    if decoded.DecoderThrew? || decoded.methodName != Some(methodName) || InputCount(decoded.inputs) != expected
    then None
    else Some(decoded.inputs)
  }

  function MetaChild(inputs: Inputs): RawTransaction
    requires inputs.MetaInputs?
  {
    RawTransaction(Some(inputs.destination), inputs.value, ToHex(inputs.data))
  }

  datatype Children = Flat(txs: seq<RawTransaction>) | Undecodable(tx: RawTransaction) | BadBatch

  /** `getChildren`: the single child, or the entries of the batch it carries. */
  function GetChildren(decoder: string -> Decoded, tx: RawTransaction, wallet: Wrapper): Children
    requires "executeTransactions" in wallet.methodIds
  {
    var meta := DecodeCall(decoder(tx.data), "executeMetaTransaction", 6);
    if meta.None? then Undecodable(tx)
    else
      var child := MetaChild(meta.value);
      if !IsCallTo(child, wallet, "executeTransactions") then Flat([child])
      else
        var batch := DecodeCall(decoder(child.data), "executeTransactions", 4);
        if batch.None? then Undecodable(child)
        else match Unpacked(batch.value) case None => BadBatch case Some(txs) => Flat(txs)
  }

  /** Every child of the list is found in the filter; the metadata in order. */
  ghost predicate AllFound(methods: map<string, Method>, txs: seq<RawTransaction>, out: seq<TransactionWithMetadata>) {
    |out| == |txs| && forall i :: 0 <= i < |txs| ==> Lookup(methods, txs[i]) == Some(Some(out[i]))
  }

  /** The first child that the filter does not find. */
  ghost predicate FirstMissing(methods: map<string, Method>, txs: seq<RawTransaction>, k: int) {
    && 0 <= k < |txs|
    && Lookup(methods, txs[k]) == Some(None)
    && forall i :: 0 <= i < k ==> Lookup(methods, txs[i]).Some? && Lookup(methods, txs[i]).value.Some?
  }

  /** A child without destination, before which every child is found. */
  ghost predicate FirstUndefined(methods: map<string, Method>, txs: seq<RawTransaction>, k: int) {
    && 0 <= k < |txs|
    && txs[k].destination.None?
    && forall i :: 0 <= i < k ==> Lookup(methods, txs[i]).Some? && Lookup(methods, txs[i]).value.Some?
  }

  class TxParserService {
    var defaultFilter: MethodFilter

    constructor (filter: MethodFilter)
      ensures defaultFilter == filter
    {
      defaultFilter := filter;
    }

    method Parse(decoder: string -> Decoded, tx: RawTransaction, wallet: Wrapper, methodFilter: MethodFilter?)
      returns (r: Outcome)
      requires "executeMetaTransaction" in wallet.methodIds && "executeTransactions" in wallet.methodIds
      requires tx.destination.Some?
      ensures var filter := if methodFilter == null then defaultFilter else methodFilter;
        ParseSpec(decoder, tx, wallet, filter.methods, r)
    {
      if !IsCallTo(tx, wallet, "executeMetaTransaction") {
        return Refused(InvalidRootTransaction(tx));
      }
      var children := GetChildren(decoder, tx, wallet);
      if children.Undecodable? {
        return Refused(TransactionDecodeError(children.tx));
      } else if children.BadBatch? {
        return Threw;
      }
      var filter := if methodFilter == null then defaultFilter else methodFilter;
      r := CheckChildren(filter.methods, children.txs);
    }
  }

  /** The loop of `parse` over the flattened children. */
  method CheckChildren(methods: map<string, Method>, txs: seq<RawTransaction>) returns (r: Outcome)
    ensures ChildrenSpec(methods, txs, r)
  {
    var found: seq<TransactionWithMetadata> := [];
    for i := 0 to |txs|
      invariant |found| == i && forall j :: 0 <= j < i ==> Lookup(methods, txs[j]) == Some(Some(found[j]))
    {
      var entry := Lookup(methods, txs[i]);
      if entry.None? {
        assert FirstUndefined(methods, txs, i);
        return Threw;
      } else if entry.value.None? {
        assert FirstMissing(methods, txs, i);
        return Refused(TransactionNotAllowed(txs[i]));
      }
      found := found + [entry.value.value];
    }
    return Parsed(found);
  }

  /** What the loop promises: all metadata in order, or the first child not found, or the exception on
      a missing destination that comes before any child not found. */
  ghost predicate ChildrenSpec(methods: map<string, Method>, txs: seq<RawTransaction>, r: Outcome) {
    match r
    case Parsed(out) => AllFound(methods, txs, out)
    case Refused(error) =>
      error.TransactionNotAllowed? && exists k :: FirstMissing(methods, txs, k) && error.tx == txs[k]
    case Threw => exists i :: FirstUndefined(methods, txs, i)
  }

  /** What `parse` promises, case by case, without its loop. */
  ghost predicate ParseSpec(decoder: string -> Decoded, tx: RawTransaction, wallet: Wrapper,
                            methods: map<string, Method>, r: Outcome)
    requires "executeMetaTransaction" in wallet.methodIds && "executeTransactions" in wallet.methodIds
  {
    if !IsCallTo(tx, wallet, "executeMetaTransaction") then r == Refused(InvalidRootTransaction(tx))
    else
      match GetChildren(decoder, tx, wallet)
      case Undecodable(at) => r == Refused(TransactionDecodeError(at))
      case BadBatch => r == Threw
      case Flat(txs) => ChildrenSpec(methods, txs, r)
  }

  /** A transaction to which some added pair applies. */
  ghost predicate AllowedBy(added: seq<Allowed>, raw: RawTransaction) {
    exists i :: 0 <= i < |added| && Matches(raw, added[i])
  }

  lemma LookupIffAllowed(added: seq<Allowed>, raw: RawTransaction)
    requires WellFormed(added)
    ensures Lookup(Insert(map[], added), raw).Some? <==> raw.destination.Some?
    ensures raw.destination.Some? ==>
      (Lookup(Insert(map[], added), raw).value.Some? <==> AllowedBy(added, raw))
  {
    if raw.destination.Some? {
      FilterSoundComplete(added, raw);
      LastWhereExact(added, (a: Allowed) => Matches(raw, a));
    }
  }

  ghost predicate AllAllowed(added: seq<Allowed>, txs: seq<RawTransaction>) {
    forall i :: 0 <= i < |txs| ==> AllowedBy(added, txs[i])
  }

  /** The metadata of a list of allowed children, each with the last pair that matches it. */
  ghost predicate AllMetadata(added: seq<Allowed>, txs: seq<RawTransaction>, out: seq<TransactionWithMetadata>) {
    |out| == |txs| && forall i :: 0 <= i < |txs| ==>
      LastMatch(txs[i], added).Some? && out[i] == Metadata(txs[i], LastMatch(txs[i], added).value)
  }

  ghost predicate FirstDisallowed(added: seq<Allowed>, txs: seq<RawTransaction>, k: int) {
    0 <= k < |txs| && !AllowedBy(added, txs[k]) && AllAllowed(added, txs[..k])
  }

  /** How the loop ends at the first child that is not allowed: it is reported, or it has no destination
      and the lookup throws. */
  predicate StopsAt(child: RawTransaction, r: Outcome) {
    r == if child.destination.Some? then Refused(TransactionNotAllowed(child)) else Threw
  }

  /** What the loop over the children yields, in terms of the pairs that were added. */
  ghost predicate ChildrenResult(added: seq<Allowed>, txs: seq<RawTransaction>, r: Outcome) {
    if AllAllowed(added, txs)
    then r.Parsed? && AllMetadata(added, txs, r.children)
    else exists k :: FirstDisallowed(added, txs, k) && StopsAt(txs[k], r)
  }

  lemma LookupAll(added: seq<Allowed>, txs: seq<RawTransaction>)
    requires WellFormed(added)
    ensures var methods := Insert(map[], added);
      forall i :: 0 <= i < |txs| ==>
        && (Lookup(methods, txs[i]).Some? <==> txs[i].destination.Some?)
        && (txs[i].destination.Some? ==> (Lookup(methods, txs[i]).value.Some? <==> AllowedBy(added, txs[i])))
        && (txs[i].destination.None? ==> !AllowedBy(added, txs[i]))
  {
    forall i | 0 <= i < |txs|
      ensures Lookup(Insert(map[], added), txs[i]).Some? <==> txs[i].destination.Some?
      ensures txs[i].destination.Some? ==>
        (Lookup(Insert(map[], added), txs[i]).value.Some? <==> AllowedBy(added, txs[i]))
    {
      LookupIffAllowed(added, txs[i]);
    }
  }

  /** All children found: the metadata are those of the last matching pairs. */
  lemma FoundMetadata(added: seq<Allowed>, txs: seq<RawTransaction>, out: seq<TransactionWithMetadata>)
    requires WellFormed(added) && AllFound(Insert(map[], added), txs, out)
    ensures AllMetadata(added, txs, out)
  {
    forall i | 0 <= i < |txs|
      ensures LastMatch(txs[i], added).Some? && out[i] == Metadata(txs[i], LastMatch(txs[i], added).value)
    {
      LookupIffAllowed(added, txs[i]);
      FilterSoundComplete(added, txs[i]);
    }
  }

  /** The loop is sound and complete: whatever meets its promise is the one result that the added pairs
      determine. */
  lemma ChildrenSoundComplete(added: seq<Allowed>, txs: seq<RawTransaction>, r: Outcome)
    requires WellFormed(added) && ChildrenSpec(Insert(map[], added), txs, r)
    ensures ChildrenResult(added, txs, r)
  {
    var methods := Insert(map[], added);
    LookupAll(added, txs);
    match r
    case Parsed(out) => FoundMetadata(added, txs, out);
    case Refused(error) =>
      var k :| FirstMissing(methods, txs, k) && error.tx == txs[k];
      assert FirstDisallowed(added, txs, k) && StopsAt(txs[k], r);
    case Threw =>
      var k :| FirstUndefined(methods, txs, k);
      assert FirstDisallowed(added, txs, k) && StopsAt(txs[k], r);
  }

  /** The transaction calls the method of the wallet: same address and same selector once normalised. */
  ghost predicate Calls(tx: RawTransaction, wallet: Wrapper, methodName: string)
    requires methodName in wallet.methodIds
  {
    && tx.destination.Some?
    && NormalizeAddress(tx.destination.value) == NormalizeAddress(wallet.address)
    && ExtractMethodId(tx.data) == NormalizeMethodId(wallet.methodIds[methodName])
  }

  /** The call data decodes to one child transaction. */
  ghost predicate CarriesChild(decoder: string -> Decoded, data: string, child: RawTransaction) {
    && decoder(data).Known? && decoder(data).methodName == Some("executeMetaTransaction")
    && decoder(data).inputs.MetaInputs?
    && child == RawTransaction(Some(decoder(data).inputs.destination), decoder(data).inputs.value,
                               ToHex(decoder(data).inputs.data))
  }

  /** The call data decodes to a batch. */
  ghost predicate CarriesBatch(decoder: string -> Decoded, data: string, batch: Inputs) {
    && decoder(data).Known? && decoder(data).methodName == Some("executeTransactions")
    && decoder(data).inputs.BatchInputs? && batch == decoder(data).inputs
  }

  /** The list of transactions that a batch stands for, each at its place in the buffer. */
  ghost predicate Unpacks(batch: Inputs, txs: seq<RawTransaction>)
    requires batch.BatchInputs?
  {
    && |txs| == |batch.lengths| <= |batch.values|
    && forall i :: 0 <= i < |txs| ==> txs[i] == Entry(batch, i)
  }

  /** What `parse` yields for the one child of a meta-transaction, in terms of the pairs that were added. */
  ghost predicate ChildResult(decoder: string -> Decoded, child: RawTransaction, wallet: Wrapper,
                              added: seq<Allowed>, r: Outcome)
    requires "executeTransactions" in wallet.methodIds
  {
    if !Calls(child, wallet, "executeTransactions") then ChildrenResult(added, [child], r)
    else if !(exists batch :: CarriesBatch(decoder, child.data, batch)) then r == Refused(TransactionDecodeError(child))
    else forall batch :: CarriesBatch(decoder, child.data, batch) ==>
           if |batch.values| < |batch.lengths| then r == Threw
           else exists txs :: Unpacks(batch, txs) && ChildrenResult(added, txs, r)
  }

  /** What `parse` yields, for every outcome: the first obstacle decides, a wrong root, a transaction that
      does not decode, the exception of a bad batch, or the first disallowed child. */
  ghost predicate ParseResult(decoder: string -> Decoded, tx: RawTransaction, wallet: Wrapper,
                              added: seq<Allowed>, r: Outcome)
    requires "executeMetaTransaction" in wallet.methodIds && "executeTransactions" in wallet.methodIds
  {
    if !Calls(tx, wallet, "executeMetaTransaction") then r == Refused(InvalidRootTransaction(tx))
    else if !(exists child :: CarriesChild(decoder, tx.data, child)) then r == Refused(TransactionDecodeError(tx))
    else forall child :: CarriesChild(decoder, tx.data, child) ==> ChildResult(decoder, child, wallet, added, r)
  }

  /** The transaction is one that `parse` should let through: the root calls the wallet, everything decodes
      and every flattened child matches an added pair. */
  ghost predicate ShouldPass(decoder: string -> Decoded, tx: RawTransaction, wallet: Wrapper, added: seq<Allowed>)
    requires "executeMetaTransaction" in wallet.methodIds && "executeTransactions" in wallet.methodIds
  {
    && Calls(tx, wallet, "executeMetaTransaction")
    && exists child :: CarriesChild(decoder, tx.data, child) && ChildShouldPass(decoder, child, wallet, added)
  }

  ghost predicate ChildShouldPass(decoder: string -> Decoded, child: RawTransaction, wallet: Wrapper,
                                  added: seq<Allowed>)
    requires "executeTransactions" in wallet.methodIds
  {
    if !Calls(child, wallet, "executeTransactions") then AllAllowed(added, [child])
    else exists batch :: CarriesBatch(decoder, child.data, batch)
                         && exists txs :: Unpacks(batch, txs) && AllAllowed(added, txs)
  }

  lemma ChildOf(decoder: string -> Decoded, tx: RawTransaction, child: RawTransaction)
    ensures CarriesChild(decoder, tx.data, child) <==>
      var inputs := DecodeCall(decoder(tx.data), "executeMetaTransaction", 6);
      inputs.Some? && child == MetaChild(inputs.value)
  {
  }

  lemma BatchOf(decoder: string -> Decoded, child: RawTransaction, batch: Inputs)
    ensures CarriesBatch(decoder, child.data, batch) <==>
      DecodeCall(decoder(child.data), "executeTransactions", 4) == Some(batch)
  {
  }

  /** The outcome for the child, whatever meets the promise of `parse`. */
  lemma ChildSoundComplete(decoder: string -> Decoded, tx: RawTransaction, child: RawTransaction, wallet: Wrapper,
                           added: seq<Allowed>, r: Outcome)
    requires WellFormed(added)
    requires "executeMetaTransaction" in wallet.methodIds && "executeTransactions" in wallet.methodIds
    requires Calls(tx, wallet, "executeMetaTransaction") && CarriesChild(decoder, tx.data, child)
    requires ParseSpec(decoder, tx, wallet, Insert(map[], added), r)
    ensures ChildResult(decoder, child, wallet, added, r)
  {
    ChildOf(decoder, tx, child);
    match GetChildren(decoder, tx, wallet)
    case Flat(txs) =>
      ChildrenSoundComplete(added, txs, r);
      if Calls(child, wallet, "executeTransactions") {
        forall batch | CarriesBatch(decoder, child.data, batch)
          ensures |batch.values| >= |batch.lengths| && Unpacks(batch, txs)
        {
          BatchOf(decoder, child, batch);
        }
        BatchOf(decoder, child, decoder(child.data).inputs);
      }
    case Undecodable(at) =>
      forall batch
        ensures !CarriesBatch(decoder, child.data, batch)
      {
        BatchOf(decoder, child, batch);
      }
    case BadBatch =>
      BatchOf(decoder, child, decoder(child.data).inputs);
  }

  lemma ResultHolds(decoder: string -> Decoded, tx: RawTransaction, wallet: Wrapper, added: seq<Allowed>, r: Outcome)
    requires WellFormed(added)
    requires "executeMetaTransaction" in wallet.methodIds && "executeTransactions" in wallet.methodIds
    requires ParseSpec(decoder, tx, wallet, Insert(map[], added), r)
    ensures ParseResult(decoder, tx, wallet, added, r)
  {
    if Calls(tx, wallet, "executeMetaTransaction") {
      forall child
        ensures CarriesChild(decoder, tx.data, child) ==> ChildResult(decoder, child, wallet, added, r)
      {
        if CarriesChild(decoder, tx.data, child) {
          ChildSoundComplete(decoder, tx, child, wallet, added, r);
        }
      }
      if !(exists child :: CarriesChild(decoder, tx.data, child)) {
        if DecodeCall(decoder(tx.data), "executeMetaTransaction", 6).Some? {
          ChildOf(decoder, tx, MetaChild(DecodeCall(decoder(tx.data), "executeMetaTransaction", 6).value));
        }
      }
    }
  }

  /** A child passes exactly when it should. */
  lemma ChildPasses(decoder: string -> Decoded, child: RawTransaction, wallet: Wrapper, added: seq<Allowed>, r: Outcome)
    requires "executeTransactions" in wallet.methodIds && ChildResult(decoder, child, wallet, added, r)
    ensures r.Parsed? <==> ChildShouldPass(decoder, child, wallet, added)
    ensures !(r.Refused? && r.error.InvalidRootTransaction?)
  {
    if Calls(child, wallet, "executeTransactions") && exists batch :: CarriesBatch(decoder, child.data, batch) {
      var batch :| CarriesBatch(decoder, child.data, batch);
      if |batch.lengths| <= |batch.values| {
        var txs :| Unpacks(batch, txs) && ChildrenResult(added, txs, r);
        assert forall other :: Unpacks(batch, other) ==> other == txs;
      }
    }
  }

  /** Soundness and completeness of `parse`: whatever meets its promise is the one result that the root, the
      decoded inputs and the added pairs determine. */
  lemma ParseSoundComplete(decoder: string -> Decoded, tx: RawTransaction, wallet: Wrapper,
                           added: seq<Allowed>, r: Outcome)
    requires WellFormed(added)
    requires "executeMetaTransaction" in wallet.methodIds && "executeTransactions" in wallet.methodIds
    requires ParseSpec(decoder, tx, wallet, Insert(map[], added), r)
    ensures ParseResult(decoder, tx, wallet, added, r)
    ensures r == Refused(InvalidRootTransaction(tx)) <==> !Calls(tx, wallet, "executeMetaTransaction")
    ensures r.Parsed? <==> ShouldPass(decoder, tx, wallet, added)
  {
    ResultHolds(decoder, tx, wallet, added, r);
    if Calls(tx, wallet, "executeMetaTransaction") {
      forall child | CarriesChild(decoder, tx.data, child)
        ensures r.Parsed? <==> ChildShouldPass(decoder, child, wallet, added)
        ensures !(r.Refused? && r.error.InvalidRootTransaction?)
      {
        ChildPasses(decoder, child, wallet, added, r);
      }
    }
  }

  lemma PackUnpacks(children: seq<Child>, txs: seq<RawTransaction>)
    requires Unpacks(Pack(children), txs)
    ensures |txs| == |children| && forall i :: 0 <= i < |children| ==> txs[i] == AsRaw(children[i])
  {
    forall i | 0 <= i < |children|
      ensures txs[i] == AsRaw(children[i])
    {
      EntryRoundTrip(children, i);
    }
  }

  /** The last pair that matches. */
  ghost predicate LastMatchAt(added: seq<Allowed>, raw: RawTransaction, j: int) {
    0 <= j < |added| && Matches(raw, added[j]) && forall l :: j < l < |added| ==> !Matches(raw, added[l])
  }

  /** The metadata of an allowed child: itself, its selector, and the names of the last pair that matches. */
  ghost predicate DescribedBy(added: seq<Allowed>, raw: RawTransaction, found: TransactionWithMetadata) {
    && found.raw == raw && found.methodId == ExtractMethodId(raw.data)
    && exists j :: LastMatchAt(added, raw, j)
         && found.methodName == added[j].target.methodName && found.contractName == added[j].target.contractName
  }

  lemma MetadataDescribes(added: seq<Allowed>, raw: RawTransaction)
    requires LastMatch(raw, added).Some?
    ensures DescribedBy(added, raw, Metadata(raw, LastMatch(raw, added).value)) && AllowedBy(added, raw)
  {
    LastWhereExact(added, (a: Allowed) => Matches(raw, a));
    var j :| 0 <= j < |added| && added[j] == LastMatch(raw, added).value && Matches(raw, added[j])
             && forall l :: j < l < |added| ==> !Matches(raw, added[l]);
    assert LastMatchAt(added, raw, j);
  }

  /** The result for a list of children: all of them described, or the first that matches no pair. */
  ghost predicate ListResult(added: seq<Allowed>, txs: seq<RawTransaction>, r: Outcome) {
    && (r.Parsed? <==> forall i :: 0 <= i < |txs| ==> AllowedBy(added, txs[i]))
    && (r.Parsed? ==> |r.children| == |txs| && forall i :: 0 <= i < |txs| ==> DescribedBy(added, txs[i], r.children[i]))
    && (!r.Parsed? ==> exists k :: FirstUnmatched(added, txs, k) && StopsAt(txs[k], r))
  }

  ghost predicate FirstUnmatched(added: seq<Allowed>, txs: seq<RawTransaction>, k: int) {
    0 <= k < |txs| && !AllowedBy(added, txs[k]) && forall i :: 0 <= i < k ==> AllowedBy(added, txs[i])
  }

  lemma ChildrenResultMeans(added: seq<Allowed>, txs: seq<RawTransaction>, r: Outcome)
    requires ChildrenResult(added, txs, r)
    ensures ListResult(added, txs, r)
  {
    if r.Parsed? {
      forall i | 0 <= i < |txs|
        ensures DescribedBy(added, txs[i], r.children[i])
      {
        MetadataDescribes(added, txs[i]);
      }
    } else {
      var k :| FirstDisallowed(added, txs, k) && StopsAt(txs[k], r);
      assert forall i :: 0 <= i < k ==> txs[..k][i] == txs[i];
      assert FirstUnmatched(added, txs, k);
    }
  }

  /** A meta-transaction that carries a packed batch passes exactly when every packed child matches an added
      pair, and then yields the metadata of each, in order; otherwise the first child that matches none is
      reported. */
  lemma ParseBatchExactly(decoder: string -> Decoded, tx: RawTransaction, child: RawTransaction, wallet: Wrapper,
                          added: seq<Allowed>, children: seq<Child>, r: Outcome)
    requires WellFormed(added)
    requires "executeMetaTransaction" in wallet.methodIds && "executeTransactions" in wallet.methodIds
    requires ParseSpec(decoder, tx, wallet, Insert(map[], added), r)
    requires Calls(tx, wallet, "executeMetaTransaction") && CarriesChild(decoder, tx.data, child)
    requires Calls(child, wallet, "executeTransactions") && CarriesBatch(decoder, child.data, Pack(children))
    ensures ListResult(added, AsRaws(children), r)
    ensures !r.Threw?
  {
    ChildSoundComplete(decoder, tx, child, wallet, added, r);
    BatchResult(decoder, child, wallet, added, children, r);
    ChildrenResultMeans(added, AsRaws(children), r);
  }

  function AsRaws(children: seq<Child>): seq<RawTransaction> {
    seq(|children|, i requires 0 <= i < |children| => AsRaw(children[i]))
  }

  lemma BatchResult(decoder: string -> Decoded, child: RawTransaction, wallet: Wrapper, added: seq<Allowed>,
                    children: seq<Child>, r: Outcome)
    requires "executeTransactions" in wallet.methodIds && Calls(child, wallet, "executeTransactions")
    requires CarriesBatch(decoder, child.data, Pack(children)) && ChildResult(decoder, child, wallet, added, r)
    ensures ChildrenResult(added, AsRaws(children), r)
  {
    var txs :| Unpacks(Pack(children), txs) && ChildrenResult(added, txs, r);
    PackUnpacks(children, txs);
    assert txs == AsRaws(children);
  }

  /** A meta-transaction whose child calls anything else passes exactly when that one child matches. */
  lemma ParseSingleExactly(decoder: string -> Decoded, tx: RawTransaction, child: RawTransaction, wallet: Wrapper,
                           added: seq<Allowed>, r: Outcome)
    requires WellFormed(added)
    requires "executeMetaTransaction" in wallet.methodIds && "executeTransactions" in wallet.methodIds
    requires ParseSpec(decoder, tx, wallet, Insert(map[], added), r)
    requires Calls(tx, wallet, "executeMetaTransaction") && CarriesChild(decoder, tx.data, child)
    requires !Calls(child, wallet, "executeTransactions")
    ensures ListResult(added, [child], r)
    ensures r.Parsed? <==> AllowedBy(added, child)
    ensures !r.Parsed? ==> r == Refused(TransactionNotAllowed(child))
  {
    ChildSoundComplete(decoder, tx, child, wallet, added, r);
    ChildrenResultMeans(added, [child], r);
    if !r.Parsed? {
      var k :| FirstUnmatched(added, [child], k) && StopsAt([child][k], r);
    } else {
      assert [child][0] == child;
    }
  }

  /** The transaction calls the named method of the contract. */
  ghost predicate CallsNamed(raw: RawTransaction, wrapper: Wrapper, name: string) {
    && raw.destination.Some? && name in wrapper.methodIds
    && NormalizeAddress(raw.destination.value) == NormalizeAddress(wrapper.address)
    && NormalizeMethodId(ExtractMethodId(raw.data)) == NormalizeMethodId(wrapper.methodIds[name])
  }

  /** What a contract adds is what calls one of the names. */
  lemma AllowedByAdditions(name: string, wrapper: Wrapper, names: seq<string>, raw: RawTransaction)
    requires HasMethods(wrapper, names)
    ensures AllowedBy(Additions(name, wrapper, names), raw) <==> CallsOneOf(raw, wrapper, names)
  {
    var added := Additions(name, wrapper, names);
    assert forall i :: 0 <= i < |names| ==> (Matches(raw, added[i]) <==> CallsNamed(raw, wrapper, names[i]));
  }

  ghost predicate CallsOneOf(raw: RawTransaction, wrapper: Wrapper, names: seq<string>) {
    exists i :: 0 <= i < |names| && CallsNamed(raw, wrapper, names[i])
  }

  lemma OneOfOne(raw: RawTransaction, wrapper: Wrapper, only: string)
    ensures CallsOneOf(raw, wrapper, [only]) <==> CallsNamed(raw, wrapper, only)
  {
    assert [only][0] == only;
  }

  lemma OneOfTwo(raw: RawTransaction, wrapper: Wrapper, first: string, second: string)
    ensures CallsOneOf(raw, wrapper, [first, second]) <==>
      CallsNamed(raw, wrapper, first) || CallsNamed(raw, wrapper, second)
  {
    var names := [first, second];
    assert names[0] == first && names[1] == second;
  }

  /** The default filter allows what one of its contracts allows. */
  lemma DefaultIsUnion(attestations: Wrapper, accounts: Wrapper, cUsd: Wrapper, cEur: Wrapper, escrow: Wrapper,
                       raw: RawTransaction)
    requires HasMethods(attestations, ATTESTATIONS) && HasMethods(accounts, ACCOUNTS)
    requires HasMethods(cUsd, STABLE_TOKEN) && HasMethods(cEur, STABLE_TOKEN) && HasMethods(escrow, ESCROW)
    ensures AllowedBy(DefaultAdditions(attestations, accounts, cUsd, cEur, escrow), raw) <==>
      || CallsOneOf(raw, attestations, ATTESTATIONS) || CallsOneOf(raw, accounts, ACCOUNTS)
      || CallsOneOf(raw, cUsd, STABLE_TOKEN) || CallsOneOf(raw, cEur, STABLE_TOKEN)
      || CallsOneOf(raw, escrow, ESCROW)
  {
    var a := Additions("Attestations", attestations, ATTESTATIONS);
    var b := Additions("Accounts", accounts, ACCOUNTS);
    var c := Additions("StableToken", cUsd, STABLE_TOKEN);
    var d := Additions("StableTokenEUR", cEur, STABLE_TOKEN);
    var e := Additions("Escrow", escrow, ESCROW);
    AllowedByConcat(a, b, raw);
    AllowedByConcat(a + b, c, raw);
    AllowedByConcat(a + b + c, d, raw);
    AllowedByConcat(a + b + c + d, e, raw);
    AllowedByAdditions("Attestations", attestations, ATTESTATIONS, raw);
    AllowedByAdditions("Accounts", accounts, ACCOUNTS, raw);
    AllowedByAdditions("StableToken", cUsd, STABLE_TOKEN, raw);
    AllowedByAdditions("StableTokenEUR", cEur, STABLE_TOKEN, raw);
    AllowedByAdditions("Escrow", escrow, ESCROW, raw);
  }

  /** The eight methods that the default filter allows, and no others. */
  lemma DefaultAllowsExactly(attestations: Wrapper, accounts: Wrapper, cUsd: Wrapper, cEur: Wrapper, escrow: Wrapper,
                             raw: RawTransaction)
    requires HasMethods(attestations, ATTESTATIONS) && HasMethods(accounts, ACCOUNTS)
    requires HasMethods(cUsd, STABLE_TOKEN) && HasMethods(cEur, STABLE_TOKEN) && HasMethods(escrow, ESCROW)
    ensures AllowedBy(DefaultAdditions(attestations, accounts, cUsd, cEur, escrow), raw) <==>
      || CallsNamed(raw, attestations, "selectIssuers") || CallsNamed(raw, attestations, "complete")
      || CallsNamed(raw, accounts, "setAccount")
      || CallsNamed(raw, cUsd, "approve") || CallsNamed(raw, cUsd, "transfer")
      || CallsNamed(raw, cEur, "approve") || CallsNamed(raw, cEur, "transfer")
      || CallsNamed(raw, escrow, "withdraw")
  {
    DefaultIsUnion(attestations, accounts, cUsd, cEur, escrow, raw);
    OneOfTwo(raw, attestations, "selectIssuers", "complete");
    OneOfOne(raw, accounts, "setAccount");
    OneOfTwo(raw, cUsd, "approve", "transfer");
    OneOfTwo(raw, cEur, "approve", "transfer");
    OneOfOne(raw, escrow, "withdraw");
  }

  lemma AllowedByConcat(a: seq<Allowed>, b: seq<Allowed>, raw: RawTransaction)
    ensures AllowedBy(a + b, raw) <==> AllowedBy(a, raw) || AllowedBy(b, raw)
  {
    var all := a + b;
    if AllowedBy(a, raw) {
      var i :| 0 <= i < |a| && Matches(raw, a[i]);
      assert Matches(raw, all[i]);
    }
    if AllowedBy(b, raw) {
      var i :| 0 <= i < |b| && Matches(raw, b[i]);
      assert Matches(raw, all[|a| + i]);
    }
  }

  /** For contracts and call data in hexadecimal, a match means the same address and the same four bytes. */
  lemma MatchesExactly(address: string, p: bool, calldata: seq<Byte>, value: string,
                       allowed: string, q: bool, id: seq<Byte>, target: Method)
    requires IsHex(address) && IsHex(allowed) && |calldata| >= 4
    ensures Matches(RawTransaction(Some(Written(address, p)), value, ToHex(calldata)),
                    Allowed(Written(allowed, q), ToHex(id), target))
       <==> SameDigits(address, allowed) && calldata[..4] == id
  {
    NormalizedEqualExactly(address, allowed, p, q);
    SelectorExactly(calldata, false, id, false);
    HexOfBytes(calldata);
    SelectorIsNormal(ToHex(calldata));
  }
}
