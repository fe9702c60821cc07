/**
 * The bot's mutable globals and its handlers, updated in place: the `addresses` registry, the
 * `logs` array, the session flags `waitingForWalletInfo` and `chatIdForWallet`, the replies sent
 * and the URLs requested. Each handler is proved to move the state exactly as the pure
 * transitions of `WalletInput` and `Balances` say.
 */
module Bot {
  import opened Options
  import opened JsStrings
  import Dicts
  import opened Activity
  import opened WalletInput
  import opened Balances

  /** The `totalBalance` object of one balance check, which `updateBalances` writes into. */
  class BalanceTable {
    var entries: Dicts.Dict<Amount>

    constructor()
      ensures entries == Dicts.Empty()
    {
      entries := Dicts.Empty();
    }
  }

  /** The lines of one bulk message read in turn: one line further. */
  lemma RecordAllStep(s: State, lines: seq<string>, ps: seq<Pair>, i: nat)
    requires |ps| == |lines| && i < |lines|
    ensures RecordAll(s, lines[i..], ps[i..]) == RecordAll(Record(s, lines[i], ps[i]), lines[i + 1..], ps[i + 1..])
  {
    assert lines[i..][0] == lines[i] && lines[i..][1..] == lines[i + 1..];
    assert ps[i..][0] == ps[i] && ps[i..][1..] == ps[i + 1..];
  }

  lemma CreditChunkStep(acc: Acc, chunk: seq<string>, k: nat, w: nat, kind: string)
    requires k < |chunk|
    ensures CreditChunk(acc, chunk[k..], w, kind) == CreditChunk(CreditAddress(acc, chunk[k], w, kind), chunk[k + 1..], w, kind)
  {
    assert chunk[k..][0] == chunk[k] && chunk[k..][1..] == chunk[k + 1..];
  }

  lemma CreditEntriesStep(acc: Acc, es: seq<Entry>, k: nat, kind: string)
    requires k < |es|
    ensures CreditEntries(acc, es[k..], kind)
      == match Owner(es[k])
         case None => Updated(acc, true)
         case Some(o) => CreditEntries(CreditEntry(acc, o, es[k], kind), es[k + 1..], kind)
  {
    assert es[k..][0] == es[k] && es[k..][1..] == es[k + 1..];
  }

  lemma RowStep(acc: Acc, e: Endpoint, addrs: seq<string>, j: nat, oracle: string -> Response)
    requires j < |addrs|
    ensures Row(acc, e, addrs[j..], oracle) == Row(Query(acc, e, addrs[j], oracle), e, addrs[j + 1..], oracle)
  {
    assert addrs[j..][0] == addrs[j] && addrs[j..][1..] == addrs[j + 1..];
  }

  lemma SweepStep(acc: Acc, es: seq<Endpoint>, addrs: seq<string>, i: nat, oracle: string -> Response)
    requires i < |es|
    ensures Sweep(acc, es[i..], addrs, oracle) == Sweep(Row(acc, es[i], addrs, oracle), es[i + 1..], addrs, oracle)
  {
    assert es[i..][0] == es[i] && es[i..][1..] == es[i + 1..];
  }

  lemma ZeroTableStep(keys: seq<string>, k: nat)
    requires k < |keys|
    ensures ZeroTable(keys[..k + 1]) == Dicts.Put(ZeroTable(keys[..k]), ToLower(keys[k]), Wei(0))
  {
    assert keys[..k + 1][..k] == keys[..k];
  }

  class Bot {
    var addresses: Dicts.Dict<string>
    var logs: seq<Event>
    var waitingForWalletInfo: bool
    var chatIdForWallet: Option<ChatId>
    var outbox: seq<Reply>
    var requests: seq<string>

    /** The globals as a value of the pure model. */
    function Snapshot(): State
      reads this
    {
      State(addresses, logs, waitingForWalletInfo, chatIdForWallet, outbox)
    }

    /** The registry holds lowercased accepted addresses and a session is open exactly when it
        names a chat. */
    predicate Valid()
      reads this
    {
      WalletInput.Valid(Snapshot())
    }

    /** Start-up (index.js:57-58, 106-107): no wallets, no log, no session. */
    constructor()
      ensures Snapshot() == Initial() && requests == []
      ensures Valid()
    {
      addresses := Dicts.Empty();
      logs := [];
      waitingForWalletInfo := false;
      chatIdForWallet := None;
      outbox := [];
      requests := [];
    }

    /** `/addwallet` (index.js:127-135). */
    method OnAddWallet(chat: ChatId)
      modifies this
      ensures Snapshot() == AddWallet(old(Snapshot()), chat)
      ensures requests == old(requests)
      ensures old(Valid()) ==> Valid() && Awaits(Snapshot(), chat)
    {
      chatIdForWallet := Some(chat);
      outbox := outbox + [Reply(chat, AddWalletPrompt)];
      logs := logs + [AddWalletRequestSent];
      waitingForWalletInfo := true;
      if old(Valid()) {
        CommandsOpenSession(old(Snapshot()), chat, chat);
      }
    }

    /** `/addbulk` (index.js:138-147). */
    method OnAddBulk(chat: ChatId)
      modifies this
      ensures Snapshot() == AddBulk(old(Snapshot()), chat)
      ensures requests == old(requests)
      ensures old(Valid()) ==> Valid() && Awaits(Snapshot(), chat)
    {
      outbox := outbox + [Reply(chat, AddBulkPrompt)];
      waitingForWalletInfo := true;
      chatIdForWallet := Some(chat);
      logs := logs + [AddBulkRequestSent];
      if old(Valid()) {
        CommandsOpenSession(old(Snapshot()), chat, chat);
      }
    }

    /** The `lines.forEach` of a bulk message (index.js:160-171). */
    method StoreBulk(lines: seq<string>)
      modifies this
      ensures Snapshot() == StoreLines(old(Snapshot()), lines)
      ensures requests == old(requests)
    {
      ghost var ps := ParseLines(lines);
      var i := 0;
      while i < |lines|
        invariant 0 <= i <= |lines|
        invariant RecordAll(Snapshot(), lines[i..], ps[i..]) == RecordAll(old(Snapshot()), lines, ps)
        invariant requests == old(requests)
      {
        ghost var before := Snapshot();
        var line := lines[i];
        var p := ParseLine(line);
        ParseLinesAt(lines, i);
        RecordAllStep(before, lines, ps, i);
        if IsAddress(p.address) {
          addresses := Dicts.Put(addresses, ToLower(p.address), p.name);
          logs := logs + [BulkAdded(p.name, p.address)];
        } else {
          logs := logs + [BulkInvalid(line)];
        }
        assert Snapshot() == Record(before, line, p);
        i := i + 1;
      }
      assert lines[|lines|..] == [] && ps[|lines|..] == [];
    }

    /** The `message` handler (index.js:150-206) for a text message from `chat`. */
    method OnMessage(chat: ChatId, text: string)
      modifies this
      ensures Snapshot() == Message(old(Snapshot()), chat, text)
      ensures requests == old(requests)
      ensures old(Valid()) ==> Valid()
    {
      ghost var s := Snapshot();
      if !waitingForWalletInfo || chatIdForWallet != Some(chat) {
        MessageIgnored(s, chat, text);
        return;
      }
      if '\t' in text || '\n' in text {
        var lines := SplitBy(text, {'\n', '\t'});
        assert Classify(text) == Bulk(lines);
        StoreBulk(lines);
        outbox := outbox + [Reply(chat, BulkAddedReply)];
        waitingForWalletInfo := false;
        chatIdForWallet := None;
        ghost var t := StoreLines(s, lines);
        assert Snapshot() == t.(outbox := t.outbox + [Reply(chat, BulkAddedReply)], waitingForWalletInfo := false, chatIdForWallet := None);
      } else if text != "" && StartsWith(text, "0x") && MatchesEntryPattern(text) {
        var parts := SplitBy(text, {' '});
        var address := parts[0];
        var name := Trim(Join(parts[1..], " "));
        if IsAddress(address) {
          assert Classify(text) == Single(address, name);
          addresses := Dicts.Put(addresses, ToLower(address), name);
          outbox := outbox + [Reply(chat, WalletAddedReply(name, address))];
          logs := logs + [WalletAdded(name)];
          waitingForWalletInfo := false;
          chatIdForWallet := None;
        } else {
          assert Classify(text) == BadAddress;
          outbox := outbox + [Reply(chat, InvalidAddressReply)];
          logs := logs + [InvalidAddressFormat];
        }
      } else {
        assert Classify(text) == BadInput;
        outbox := outbox + [Reply(chat, InvalidInputReply)];
        logs := logs + [InvalidInputFormat];
      }
      if old(Valid()) {
        MessageKeepsRegistry(s, chat, text);
      }
    }

    /** The `chunk.forEach` of a string result (index.js:339-344). */
    method CreditEachAddress(chunk: seq<string>, w: nat, table: BalanceTable, totalETH: nat, kind: string)
      returns (total: nat)
      modifies this, table
      ensures var a := CreditChunk(Acc(old(table.entries), totalETH, old(logs), old(requests)), chunk, w, kind);
        Acc(table.entries, total, logs, requests) == a
      ensures addresses == old(addresses) && waitingForWalletInfo == old(waitingForWalletInfo)
      ensures chatIdForWallet == old(chatIdForWallet) && outbox == old(outbox)
    {
      ghost var start := Acc(table.entries, totalETH, logs, requests);
      total := totalETH;
      var k := 0;
      while k < |chunk|
        invariant 0 <= k <= |chunk|
        invariant CreditChunk(Acc(table.entries, total, logs, requests), chunk[k..], w, kind) == CreditChunk(start, chunk, w, kind)
        invariant addresses == old(addresses) && waitingForWalletInfo == old(waitingForWalletInfo)
        invariant chatIdForWallet == old(chatIdForWallet) && outbox == old(outbox)
      {
        ghost var a := Acc(table.entries, total, logs, requests);
        CreditChunkStep(a, chunk, k, w, kind);
        var address := chunk[k];
        table.entries := Credit(table.entries, ToLower(address), w);
        total := total + w;
        logs := logs + [Converted(address, kind, w)];
        assert Acc(table.entries, total, logs, requests) == CreditAddress(a, address, w, kind);
        k := k + 1;
      }
      assert chunk[|chunk|..] == [];
    }

    /** The `result.forEach` of an array result (index.js:347-359); it stops where an entry
        has neither `account` nor `address`. */
    method CreditEachEntry(es: seq<Entry>, table: BalanceTable, totalETH: nat, kind: string)
      returns (total: nat, threw: bool)
      modifies this, table
      ensures var u := CreditEntries(Acc(old(table.entries), totalETH, old(logs), old(requests)), es, kind);
        Acc(table.entries, total, logs, requests) == u.acc && threw == u.threw
      ensures addresses == old(addresses) && waitingForWalletInfo == old(waitingForWalletInfo)
      ensures chatIdForWallet == old(chatIdForWallet) && outbox == old(outbox)
    {
      ghost var start := Acc(table.entries, totalETH, logs, requests);
      total, threw := totalETH, false;
      var k := 0;
      while k < |es|
        invariant 0 <= k <= |es|
        invariant CreditEntries(Acc(table.entries, total, logs, requests), es[k..], kind) == CreditEntries(start, es, kind)
        invariant addresses == old(addresses) && waitingForWalletInfo == old(waitingForWalletInfo)
        invariant chatIdForWallet == old(chatIdForWallet) && outbox == old(outbox)
      {
        ghost var a := Acc(table.entries, total, logs, requests);
        CreditEntriesStep(a, es, k, kind);
        var entry := es[k];
        match Owner(entry)
        case None =>
          threw := true;
          return;
        case Some(owner) =>
          if entry.balance == 0 {
            logs := logs + [NoBalance(kind, owner)];
          } else {
            table.entries := Credit(table.entries, owner, entry.balance);
            total := total + entry.balance;
            logs := logs + [Converted(owner, kind, entry.balance)];
          }
          assert Acc(table.entries, total, logs, requests) == CreditEntry(a, owner, entry, kind);
        k := k + 1;
      }
      assert es[|es|..] == [];
    }

    /** `updateBalances` (index.js:335-365): it credits `table` in place, appends to `logs`,
        and returns the new `totalETH`, or reports that it threw. */
    method UpdateBalances(result: Result, chunk: seq<string>, table: BalanceTable, totalETH: nat, kind: string)
      returns (total: nat, threw: bool)
      requires !result.Falsy?
      modifies this, table
      ensures var u := Update(Acc(old(table.entries), totalETH, old(logs), old(requests)), result, chunk, kind);
        Acc(table.entries, total, logs, requests) == u.acc && threw == u.threw
      ensures addresses == old(addresses) && waitingForWalletInfo == old(waitingForWalletInfo)
      ensures chatIdForWallet == old(chatIdForWallet) && outbox == old(outbox)
    {
      match result
      case Str(w) =>
        total := CreditEachAddress(chunk, w, table, totalETH, kind);
        threw := false;
      case Arr(es) =>
        total, threw := CreditEachEntry(es, table, totalETH, kind);
      case Other =>
        logs := logs + [UnexpectedStructure];
        total, threw := totalETH, false;
    }

    /** One request of the inner loop of `fetchWalletBalances` (index.js:297-314). */
    method QueryOne(e: Endpoint, address: string, table: BalanceTable, totalETH: nat, oracle: string -> Response)
      returns (total: nat)
      modifies this, table
      ensures Acc(table.entries, total, logs, requests) == Query(Acc(old(table.entries), totalETH, old(logs), old(requests)), e, address, oracle)
      ensures addresses == old(addresses) && waitingForWalletInfo == old(waitingForWalletInfo)
      ensures chatIdForWallet == old(chatIdForWallet) && outbox == old(outbox)
    {
      total := totalETH;
      var url := ReplaceFirst(Template(e), "{}", address);
      requests := requests + [url];
      match oracle(url)
      case Failure =>
        logs := logs + [FetchFailed(address, Template(e))];
      case Ok(status, result) =>
        if status == 200 && !result.Falsy? {
          var t, threw := UpdateBalances(result, [address], table, totalETH, e.kind);
          if threw {
            logs := logs + [FetchFailed(address, Template(e))];
          } else {
            total := t;
          }
        } else {
          logs := logs + [InvalidResponse(url)];
        }
    }

    /** The inner loop over the registered addresses, for one endpoint. */
    method QueryRow(e: Endpoint, keys: seq<string>, table: BalanceTable, totalETH: nat, oracle: string -> Response)
      returns (total: nat)
      modifies this, table
      ensures Acc(table.entries, total, logs, requests) == Row(Acc(old(table.entries), totalETH, old(logs), old(requests)), e, keys, oracle)
      ensures addresses == old(addresses) && waitingForWalletInfo == old(waitingForWalletInfo)
      ensures chatIdForWallet == old(chatIdForWallet) && outbox == old(outbox)
    {
      ghost var target := Row(Acc(table.entries, totalETH, logs, requests), e, keys, oracle);
      total := totalETH;
      var j := 0;
      while j < |keys|
        invariant 0 <= j <= |keys|
        invariant Row(Acc(table.entries, total, logs, requests), e, keys[j..], oracle) == target
        invariant addresses == old(addresses) && waitingForWalletInfo == old(waitingForWalletInfo)
        invariant chatIdForWallet == old(chatIdForWallet) && outbox == old(outbox)
      {
        RowStep(Acc(table.entries, total, logs, requests), e, keys, j, oracle);
        total := QueryOne(e, keys[j], table, total, oracle);
        j := j + 1;
      }
      assert keys[|keys|..] == [];
    }

    /** The loop that sets every wallet's total to 0 (index.js:288-293). */
    method ZeroTotals(keys: seq<string>) returns (table: BalanceTable)
      ensures fresh(table) && table.entries == ZeroTable(keys)
    {
      table := new BalanceTable();
      var k := 0;
      while k < |keys|
        invariant 0 <= k <= |keys|
        invariant table.entries == ZeroTable(keys[..k])
        modifies table
      {
        ZeroTableStep(keys, k);
        table.entries := Dicts.Put(table.entries, ToLower(keys[k]), Wei(0));
        k := k + 1;
      }
      assert keys[..|keys|] == keys;
    }

    /** The outer loop over the endpoints (index.js:295-316). */
    method QueryAll(keys: seq<string>, table: BalanceTable, oracle: string -> Response) returns (totalETH: nat)
      modifies this, table
      ensures Acc(table.entries, totalETH, logs, requests) == Sweep(Acc(old(table.entries), 0, old(logs), old(requests)), Endpoints, keys, oracle)
      ensures addresses == old(addresses) && waitingForWalletInfo == old(waitingForWalletInfo)
      ensures chatIdForWallet == old(chatIdForWallet) && outbox == old(outbox)
    {
      ghost var target := Sweep(Acc(table.entries, 0, logs, requests), Endpoints, keys, oracle);
      totalETH := 0;
      var i := 0;
      while i < |Endpoints|
        invariant 0 <= i <= |Endpoints|
        invariant Sweep(Acc(table.entries, totalETH, logs, requests), Endpoints[i..], keys, oracle) == target
        invariant addresses == old(addresses) && waitingForWalletInfo == old(waitingForWalletInfo)
        invariant chatIdForWallet == old(chatIdForWallet) && outbox == old(outbox)
      {
        SweepStep(Acc(table.entries, totalETH, logs, requests), Endpoints, keys, i, oracle);
        totalETH := QueryRow(Endpoints[i], keys, table, totalETH, oracle);
        i := i + 1;
      }
      assert Endpoints[|Endpoints|..] == [];
    }

    /** `fetchWalletBalances` (index.js:246-332), with the explorer API as `oracle`: what it
        returns, logs and requests is what `Balances.Fetch` says, and it leaves the registry and
        the session alone. */
    method FetchWalletBalances(oracle: string -> Response) returns (report: Report)
      requires Valid()
      modifies this
      ensures Fetch(old(addresses), old(logs), old(requests), oracle) == Outcome(report, logs, requests)
      ensures addresses == old(addresses) && waitingForWalletInfo == old(waitingForWalletInfo)
      ensures chatIdForWallet == old(chatIdForWallet) && outbox == old(outbox)
    {
      if |addresses.keys| == 0 {
        logs := logs + [NoWalletsLogged];
        report := NoWallets(NoWalletsText);
        return;
      }
      var keys := addresses.keys;
      var table := ZeroTotals(keys);
      var totalETH := QueryAll(keys, table, oracle);
      report := Totals(Lines(addresses, table.entries), totalETH, Total(table.entries));
    }
  }
}
