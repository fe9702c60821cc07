/**
 * The balance sweep of `fetchWalletBalances` and `updateBalances` (index.js:246-365) as pure
 * functions over an accumulator. Balances are kept in base units (wei) as natural numbers; the
 * division by 10^18 and the decimal printing are not modelled. The class `Bot.Bot` runs the same
 * sweep with loops that update a `totalBalance` object in place and is proved to agree with
 * these functions.
 */
module Balances {
  import opened Options
  import opened JsStrings
  import Dicts
  import opened Activity
  import opened WalletInput
  import Chunking

  // ---------------------------------------------------------------------------------------
  // amounts

  /** A value of `totalBalance`: a number of wei, or `NaN` (what `undefined + balance` gives
      when a balance is added for an address the object does not hold). */
  datatype Amount = Wei(wei: nat) | NaN

  /** `a + w` for a balance `w`. */
  function Plus(a: Amount, w: nat): Amount {
    match a
    case Wei(x) => Wei(x + w)
    case NaN => NaN
  }

  /** `a + b` for two values of the object. */
  function Add(a: Amount, b: Amount): Amount {
    match a
    case Wei(x) => Plus(b, x)
    case NaN => NaN
  }

  /** `totalBalance[k]` read as a number: `undefined` behaves as `NaN` under `+`. */
  function Get(t: Dicts.Dict<Amount>, k: string): Amount {
    if k in t.values then t.values[k] else NaN
  }

  /** `totalBalance[k] += w`. */
  function Credit(t: Dicts.Dict<Amount>, k: string, w: nat): Dicts.Dict<Amount> {
    Dicts.Put(t, k, Plus(Get(t, k), w))
  }

  /** The sum of the values listed by `keys`. */
  function SumOver(keys: seq<string>, values: map<string, Amount>): Amount
    decreases |keys|
  {
    if keys == [] then Wei(0)
    else Add(if keys[0] in values then values[keys[0]] else NaN, SumOver(keys[1..], values))
  }

  /** `Object.values(totalBalance).reduce((acc, balance) => acc + balance, 0)` (index.js:316);
      the addition is commutative, so the order of the fold does not matter. */
  function Total(t: Dicts.Dict<Amount>): Amount {
    SumOver(t.keys, t.values)
  }

  // ---------------------------------------------------------------------------------------
  // the responses of the explorer API

  /** One element of an array `result`: `account`, `address` (either may be missing) and the
      balance, already parsed into wei. */
  datatype Entry = Entry(account: Option<string>, address: Option<string>, balance: nat)

  /** The key an array entry is credited to (index.js:349): the lowercased `account` when it is
      a non-empty string, else the lowercased `address`; `None` when neither is there, where
      `entry.address.toLowerCase()` throws. */
  function Owner(e: Entry): Option<string> {
    if e.account.Some? && e.account.value != "" then Some(ToLower(e.account.value))
    else if e.address.Some? then Some(ToLower(e.address.value))
    else None
  }

  /** `response.data.result`: a numeric string (the balance in wei), an array of entries, any
      other truthy value, or a falsy one (missing `data` or `result`, `null`, `0`, `""`). */
  datatype Result = Str(wei: nat) | Arr(entries: seq<Entry>) | Other | Falsy

  /** What `axios.get` does: it throws (a network error or a status outside 2xx), or it
      resolves with a status and a body. */
  datatype Response = Failure | Ok(status: int, result: Result)

  /** A row of `baseUrls`: the URL template, split at its `{}` placeholder, and its `type`. */
  datatype Endpoint = Endpoint(before: string, after: string, kind: string)

  /** The `url` field of a row. */
  function Template(e: Endpoint): string {
    e.before + "{}" + e.after
  }

  const ApiKey := "&apikey=f81c68cb-34fb-4ae8-b79b-3f2d72a0f308"

  /** The part of a `baseUrls` template before its `{}`:
      `https://<chain>.blockscout.com/api?module=account&action=<action>&address=`. */
  function Blockscout(chain: string, action: string): string {
    "https://" + chain + ".blockscout.com/api?module=account&action=" + action + "&address="
  }

  /** The `action` of a token-balance row. */
  function TokenBalance(contract: string): string {
    "tokenbalance&contractaddress=" + contract
  }

  /** `baseUrls` (index.js:253-286), in order. */
  const Endpoints: seq<Endpoint> := [
    Endpoint(Blockscout("eth", "balancemulti"), ApiKey, "results"),
    Endpoint(Blockscout("base", "balancemulti"), ApiKey, "results"),
    Endpoint(Blockscout("arbitrum", "balancemulti"), ApiKey, "results"),
    Endpoint(Blockscout("optimism", "balancemulti"), ApiKey, "results"),
    Endpoint(Blockscout("gnosis", TokenBalance("0x6A023CCd1ff6F2045C3309768eAd9E68F978f6e1")), ApiKey, "gnosis"),
    Endpoint(Blockscout("polygon", TokenBalance("0x7ceB23fD6bC0adD59E62ac25578270cFf1b9f619")), ApiKey, "polygon"),
    Endpoint(Blockscout("eth", TokenBalance("0xae7ab96520DE3A18E5e111B5EaAb095312D7fE84")), ApiKey, "eth"),
    Endpoint(Blockscout("eth", TokenBalance("0xac3E018457B222d93114458476f3E3416Abbe38F")), ApiKey, "eth")
  ]

  // ---------------------------------------------------------------------------------------
  // updateBalances

  /** What the sweep carries along: `totalBalance`, `totalETH`, the global `logs` and the URLs
      requested so far. */
  datatype Acc = Acc(table: Dicts.Dict<Amount>, total: nat, logs: seq<Event>, requests: seq<string>)

  /** What `updateBalances` leaves behind, and whether it threw half-way. */
  datatype Updated = Updated(acc: Acc, threw: bool)

  /** The `chunk.forEach` of a string result (index.js:339-344): every address of the chunk is
      credited with the same balance. */
  function CreditChunk(acc: Acc, chunk: seq<string>, w: nat, kind: string): Acc
    decreases |chunk|
  {
    if chunk == [] then acc else CreditChunk(CreditAddress(acc, chunk[0], w, kind), chunk[1..], w, kind)
  }

  /** One address of a string result: its lowercased key gains `w`, and so does `totalETH`. */
  function CreditAddress(acc: Acc, address: string, w: nat, kind: string): Acc {
    acc.(table := Credit(acc.table, ToLower(address), w),
         total := acc.total + w,
         logs := acc.logs + [Converted(address, kind, w)])
  }

  /** One element of an array result whose owner is known (index.js:350-358). */
  function CreditEntry(acc: Acc, owner: string, e: Entry, kind: string): Acc {
    if e.balance == 0 then acc.(logs := acc.logs + [NoBalance(kind, owner)])
    else
      acc.(table := Credit(acc.table, owner, e.balance),
           total := acc.total + e.balance,
           logs := acc.logs + [Converted(owner, kind, e.balance)])
  }

  /** The `result.forEach` of an array result (index.js:347-359); it stops at the first entry
      without an owner, whose lookup throws. */
  function CreditEntries(acc: Acc, es: seq<Entry>, kind: string): Updated
    decreases |es|
  {
    if es == [] then Updated(acc, false)
    else
      match Owner(es[0])
      case None => Updated(acc, true)
      case Some(o) => CreditEntries(CreditEntry(acc, o, es[0], kind), es[1..], kind)
  }

  /** `updateBalances(result, chunk, totalBalance, totalETH, baseUrlInfo)` (index.js:335-365).
      Its only caller passes a truthy `result`. */
  function Update(acc: Acc, result: Result, chunk: seq<string>, kind: string): Updated
    requires !result.Falsy?
  {
    match result
    case Str(w) => Updated(CreditChunk(acc, chunk, w, kind), false)
    case Arr(es) => CreditEntries(acc, es, kind)
    case Other => Updated(acc.(logs := acc.logs + [UnexpectedStructure]), false)
  }

  // ---------------------------------------------------------------------------------------
  // fetchWalletBalances

  /** The URL requested for `address` at endpoint `e` (index.js:298). */
  function UrlFor(e: Endpoint, address: string): string {
    ReplaceFirst(Template(e), "{}", address)
  }

  /** One iteration of the inner loop (index.js:297-314). The explorer is a function from the
      URL to its response. When `updateBalances` throws, what it already wrote into
      `totalBalance` and `logs` stays, but `totalETH` keeps its value from before the call. */
  function Query(acc: Acc, e: Endpoint, address: string, oracle: string -> Response): Acc {
    var url := UrlFor(e, address);
    var sent := acc.(requests := acc.requests + [url]);
    match oracle(url)
    case Failure => sent.(logs := sent.logs + [FetchFailed(address, Template(e))])
    case Ok(status, result) =>
      if status == 200 && !result.Falsy? then
        var u := Update(sent, result, [address], e.kind);
        if u.threw then u.acc.(total := sent.total, logs := u.acc.logs + [FetchFailed(address, Template(e))])
        else u.acc
      else sent.(logs := sent.logs + [InvalidResponse(url)])
  }

  /** The inner loop over the registered addresses, for one endpoint. */
  function Row(acc: Acc, e: Endpoint, addrs: seq<string>, oracle: string -> Response): Acc
    decreases |addrs|
  {
    if addrs == [] then acc else Row(Query(acc, e, addrs[0], oracle), e, addrs[1..], oracle)
  }

  /** The outer loop over the endpoints. */
  function Sweep(acc: Acc, es: seq<Endpoint>, addrs: seq<string>, oracle: string -> Response): Acc
    decreases |es|
  {
    if es == [] then acc else Sweep(Row(acc, es[0], addrs, oracle), es[1..], addrs, oracle)
  }

  /** `totalBalance` after its initialising loop (index.js:288-293) over the first keys. */
  function ZeroTable(keys: seq<string>): (t: Dicts.Dict<Amount>)
    ensures Dicts.Valid(t)
    decreases |keys|
  {
    if keys == [] then Dicts.Empty()
    else Dicts.Put(ZeroTable(keys[..|keys| - 1]), ToLower(keys[|keys| - 1]), Wei(0))
  }

  /** One line of the report: a wallet's name and its summed balance. */
  datatype Line = Line(name: string, balance: Amount)

  /** What the report says: the fixed "no wallets" message, or each wallet's total in registry
      order, `totalETH`, and the combined balance from which the USD and CAD values are
      computed. */
  datatype Report = NoWallets(message: string) | Totals(lines: seq<Line>, totalETH: nat, combined: Amount)

  /** The report loop of index.js:323-326. */
  function Lines(reg: Dicts.Dict<string>, table: Dicts.Dict<Amount>): (ls: seq<Line>)
    requires Dicts.Valid(reg)
    ensures |ls| == |reg.keys|
  {
    seq(|reg.keys|, i requires 0 <= i < |reg.keys| => Line(reg.values[reg.keys[i]], Get(table, ToLower(reg.keys[i]))))
  }

  /** What a call of `fetchWalletBalances` returns and leaves behind. */
  datatype Outcome = Outcome(report: Report, logs: seq<Event>, requests: seq<string>)

  /** `fetchWalletBalances` (index.js:246-332) on registry `reg`. */
  function Fetch(reg: Dicts.Dict<string>, logs: seq<Event>, requests: seq<string>, oracle: string -> Response): Outcome
    requires Dicts.Valid(reg)
  {
    if |reg.keys| == 0 then Outcome(NoWallets(NoWalletsText), logs + [NoWalletsLogged], requests)
    else
      var acc := Sweep(Acc(ZeroTable(reg.keys), 0, logs, requests), Endpoints, reg.keys, oracle);
      Outcome(Totals(Lines(reg, acc.table), acc.total, Total(acc.table)), acc.logs, acc.requests)
  }

  // ---------------------------------------------------------------------------------------
  // sums

  /** Values that the keys do not list do not count. */
  lemma {:induction false} SumFrame(keys: seq<string>, values: map<string, Amount>, k: string, v: Amount)
    requires k !in keys
    ensures SumOver(keys, values[k := v]) == SumOver(keys, values)
    decreases |keys|
  {
    if keys != [] {
      SumFrame(keys[1..], values, k, v);
    }
  }

  /** Adding `w` to one listed value adds `w` to the sum. */
  lemma {:induction false} SumCredit(keys: seq<string>, values: map<string, Amount>, k: string, w: nat)
    requires Dicts.Distinct(keys) && k in keys && k in values
    ensures SumOver(keys, values[k := Plus(values[k], w)]) == Plus(SumOver(keys, values), w)
    decreases |keys|
  {
    var v := Plus(values[k], w);
    if keys[0] == k {
      assert k !in keys[1..] by {
        forall i | 0 <= i < |keys[1..]| ensures keys[1..][i] != k {
          assert keys[1..][i] == keys[i + 1];
        }
      }
      SumFrame(keys[1..], values, k, v);
    } else {
      SumCredit(keys[1..], values, k, w);
    }
  }

  /** `totalBalance[k] += w` on a key the object holds adds `w` to the combined balance and
      keeps the set of keys. */
  lemma CreditTotal(t: Dicts.Dict<Amount>, k: string, w: nat)
    requires Dicts.Valid(t) && k in t.values
    ensures Dicts.Valid(Credit(t, k, w))
    ensures Total(Credit(t, k, w)) == Plus(Total(t), w)
    ensures Credit(t, k, w).values.Keys == t.values.Keys
  {
    SumCredit(t.keys, t.values, k, w);
  }

  /** A table whose every value is zero sums to zero. */
  lemma {:induction false} SumZero(keys: seq<string>, values: map<string, Amount>)
    requires forall k :: k in keys ==> k in values && values[k] == Wei(0)
    ensures SumOver(keys, values) == Wei(0)
    decreases |keys|
  {
    if keys != [] {
      assert keys[0] in keys;
      SumZero(keys[1..], values);
    }
  }

  // ---------------------------------------------------------------------------------------
  // the initial table

  /** Every key starts at zero: the initial table holds exactly the lowercased keys, each with
      value 0, and sums to 0. */
  lemma {:induction false} ZeroTableShape(keys: seq<string>)
    ensures var t := ZeroTable(keys);
      && Dicts.Valid(t)
      && (forall i :: 0 <= i < |keys| ==> ToLower(keys[i]) in t.values)
      && (forall k :: k in t.values ==> t.values[k] == Wei(0) && exists i :: 0 <= i < |keys| && k == ToLower(keys[i]))
      && Total(t) == Wei(0)
  {
    var t := ZeroTable(keys);
    ZeroTableEntries(keys);
    assert forall k :: k in t.keys ==> k in t.values && t.values[k] == Wei(0);
    SumZero(t.keys, t.values);
  }

  lemma {:induction false} ZeroTableEntries(keys: seq<string>)
    ensures var t := ZeroTable(keys);
      && (forall i :: 0 <= i < |keys| ==> ToLower(keys[i]) in t.values)
      && (forall k :: k in t.values ==> t.values[k] == Wei(0) && exists i :: 0 <= i < |keys| && k == ToLower(keys[i]))
    decreases |keys|
  {
    var t := ZeroTable(keys);
    if keys != [] {
      var init := keys[..|keys| - 1];
      ZeroTableEntries(init);
      forall i | 0 <= i < |keys| ensures ToLower(keys[i]) in t.values {
        if i < |keys| - 1 {
          assert keys[i] == init[i];
        }
      }
      forall k | k in t.values ensures t.values[k] == Wei(0) && exists i :: 0 <= i < |keys| && k == ToLower(keys[i]) {
        if k != ToLower(keys[|keys| - 1]) {
          var i :| 0 <= i < |init| && k == ToLower(init[i]);
          assert init[i] == keys[i];
        }
      }
    }
  }

  // ---------------------------------------------------------------------------------------
  // updateBalances, shape by shape

  /** The balances an array result owes to key `k`. */
  function OwedTo(es: seq<Entry>, k: string): nat
    decreases |es|
  {
    if es == [] then 0 else (if Owner(es[0]) == Some(k) then es[0].balance else 0) + OwedTo(es[1..], k)
  }

  /** All the balances of an array result. */
  function BalanceSum(es: seq<Entry>): nat
    decreases |es|
  {
    if es == [] then 0 else es[0].balance + BalanceSum(es[1..])
  }

  /** A string result credits its balance to the lowercased address and to `totalETH`, and
      logs one conversion; no other key changes. */
  lemma UpdateString(acc: Acc, w: nat, address: string, kind: string)
    ensures var u := Update(acc, Str(w), [address], kind);
      && !u.threw
      && u.acc.total == acc.total + w
      && Get(u.acc.table, ToLower(address)) == Plus(Get(acc.table, ToLower(address)), w)
      && (forall k :: k != ToLower(address) ==> Get(u.acc.table, k) == Get(acc.table, k))
      && u.acc.logs == acc.logs + [Converted(address, kind, w)]
      && u.acc.requests == acc.requests
  {
    var u := Update(acc, Str(w), [address], kind);
    var a1 := CreditAddress(acc, address, w, kind);
    assert [address][1..] == [];
    assert u.acc == CreditChunk(a1, [], w, kind);
  }

  /** Any other truthy result only logs "Unexpected response structure". */
  lemma UpdateOther(acc: Acc, chunk: seq<string>, kind: string)
    ensures Update(acc, Other, chunk, kind) == Updated(acc.(logs := acc.logs + [UnexpectedStructure]), false)
    ensures Update(acc, Other, chunk, kind).acc.table == acc.table
  {
  }

  /** An array result throws exactly when some entry has neither an `account` nor an `address`.
      Otherwise it adds every balance to `totalETH`, adds to each key the balances owed to it
      (entries with a zero balance are skipped, so a key nobody owes is left as it was, even
      absent), and logs one entry per element. */
  lemma {:induction false} CreditEntriesEffect(acc: Acc, es: seq<Entry>, kind: string)
    ensures var u := CreditEntries(acc, es, kind);
      && (u.threw <==> exists i :: 0 <= i < |es| && Owner(es[i]).None?)
      && (!u.threw ==> u.acc.total == acc.total + BalanceSum(es))
      && (!u.threw ==> |u.acc.logs| == |acc.logs| + |es|)
      && (!u.threw ==> forall k :: Get(u.acc.table, k) == Plus(Get(acc.table, k), OwedTo(es, k)))
      && (!u.threw ==> forall k :: OwedTo(es, k) == 0 ==> (k in u.acc.table.values <==> k in acc.table.values))
      && u.acc.requests == acc.requests
    decreases |es|
  {
    if es != [] {
      match Owner(es[0])
      case None =>
        assert Owner(es[0]).None?;
      case Some(o) =>
        var a1 := CreditEntry(acc, o, es[0], kind);
        CreditEntriesEffect(a1, es[1..], kind);
        var u := CreditEntries(a1, es[1..], kind);
        assert CreditEntries(acc, es, kind) == u;
        if exists i :: 0 <= i < |es[1..]| && Owner(es[1..][i]).None? {
          var i :| 0 <= i < |es[1..]| && Owner(es[1..][i]).None?;
          assert Owner(es[i + 1]).None?;
        }
        if exists i :: 0 <= i < |es| && Owner(es[i]).None? {
          var i :| 0 <= i < |es| && Owner(es[i]).None?;
          assert i != 0;
          assert Owner(es[1..][i - 1]).None?;
        }
        if !u.threw {
          forall k ensures Get(u.acc.table, k) == Plus(Get(acc.table, k), OwedTo(es, k)) {
            assert Get(u.acc.table, k) == Plus(Get(a1.table, k), OwedTo(es[1..], k));
          }
          forall k | OwedTo(es, k) == 0 ensures (k in u.acc.table.values <==> k in acc.table.values) {
            assert OwedTo(es[1..], k) == 0;
            assert k in a1.table.values <==> k in acc.table.values;
          }
        }
    }
  }

  // ---------------------------------------------------------------------------------------
  // one query

  /** A request that fails, answers with a status other than 200, or carries no result leaves
      `totalBalance` and `totalETH` alone and logs exactly one entry. */
  lemma QueryWithoutData(acc: Acc, e: Endpoint, address: string, oracle: string -> Response)
    requires var r := oracle(UrlFor(e, address)); r.Failure? || r.status != 200 || r.result.Falsy?
    ensures var q := Query(acc, e, address, oracle);
      && q.table == acc.table
      && q.total == acc.total
      && q.requests == acc.requests + [UrlFor(e, address)]
      && q.logs == acc.logs + [if oracle(UrlFor(e, address)).Failure? then FetchFailed(address, Template(e))
                               else InvalidResponse(UrlFor(e, address))]
  {
  }

  /** The URL for an address without `$` is the template with its placeholder replaced by the
      address, when no `{` comes before the placeholder (as in every row of `baseUrls`). */
  lemma TemplateUrl(e: Endpoint, address: string)
    requires '{' !in e.before
    requires '$' !in address
    ensures UrlFor(e, address) == e.before + address + e.after
  {
    forall j: nat ensures !OccursAt(e.before, "{}", j) {
      if j + 2 <= |e.before| {
        assert e.before[j..j + 2][0] == e.before[j];
        assert e.before[j] in e.before;
      }
    }
    ReplacePlaceholder(e.before, e.after, address);
  }

  lemma BlockscoutFree(chain: string, action: string)
    requires '{' !in chain && '{' !in action
    ensures '{' !in Blockscout(chain, action)
  {
    assert '{' !in "https://";
    assert '{' !in ".blockscout.com/api?module=account&action=";
    assert '{' !in "&address=";
  }

  lemma TokenBalanceFree(contract: string)
    requires '{' !in contract
    ensures '{' !in TokenBalance(contract)
  {
    assert '{' !in "tokenbalance&contractaddress=";
  }

  /** The four `balancemulti` rows have no `{` before their placeholder. */
  lemma BalanceRows(i: nat)
    requires i < 4
    ensures '{' !in Endpoints[i].before
  {
    assert '{' !in "balancemulti";
    BlockscoutFree(["eth", "base", "arbitrum", "optimism"][i], "balancemulti");
  }

  lemma GnosisTokenRow()
    ensures '{' !in Endpoints[4].before
  {
    assert '{' !in "0x6A023CCd1ff6F2045C3309768eAd9E68F978f6e1";
    TokenBalanceFree("0x6A023CCd1ff6F2045C3309768eAd9E68F978f6e1");
    BlockscoutFree("gnosis", TokenBalance("0x6A023CCd1ff6F2045C3309768eAd9E68F978f6e1"));
  }

  lemma PolygonTokenRow()
    ensures '{' !in Endpoints[5].before
  {
    assert '{' !in "0x7ceB23fD6bC0adD59E62ac25578270cFf1b9f619";
    TokenBalanceFree("0x7ceB23fD6bC0adD59E62ac25578270cFf1b9f619");
    BlockscoutFree("polygon", TokenBalance("0x7ceB23fD6bC0adD59E62ac25578270cFf1b9f619"));
  }

  lemma FirstEthTokenRow()
    ensures '{' !in Endpoints[6].before
  {
    assert '{' !in "0xae7ab96520DE3A18E5e111B5EaAb095312D7fE84";
    TokenBalanceFree("0xae7ab96520DE3A18E5e111B5EaAb095312D7fE84");
    BlockscoutFree("eth", TokenBalance("0xae7ab96520DE3A18E5e111B5EaAb095312D7fE84"));
  }

  lemma SecondEthTokenRow()
    ensures '{' !in Endpoints[7].before
  {
    assert '{' !in "0xac3E018457B222d93114458476f3E3416Abbe38F";
    TokenBalanceFree("0xac3E018457B222d93114458476f3E3416Abbe38F");
    BlockscoutFree("eth", TokenBalance("0xac3E018457B222d93114458476f3E3416Abbe38F"));
  }

  /** No row of `baseUrls` has a `{` before its placeholder. */
  lemma EndpointsPlaceholderFirst()
    ensures forall i :: 0 <= i < |Endpoints| ==> '{' !in Endpoints[i].before
  {
    forall i | 0 <= i < |Endpoints| ensures '{' !in Endpoints[i].before {
      if i < 4 {
        BalanceRows(i);
      } else if i == 4 {
        GnosisTokenRow();
      } else if i == 5 {
        PolygonTokenRow();
      } else if i == 6 {
        FirstEthTokenRow();
      } else {
        SecondEthTokenRow();
      }
    }
  }

  /** What every row of `baseUrls` requests for an address without `$`: the row's URL with the
      address in place of `{}`. */
  lemma EndpointUrl(i: nat, address: string)
    requires i < |Endpoints|
    requires '$' !in address
    ensures UrlFor(Endpoints[i], address) == Endpoints[i].before + address + Endpoints[i].after
  {
    EndpointsPlaceholderFirst();
    TemplateUrl(Endpoints[i], address);
  }

  // ---------------------------------------------------------------------------------------
  // the requests of a sweep

  /** The URLs of one endpoint's row, in address order. */
  function RowUrls(e: Endpoint, addrs: seq<string>): (urls: seq<string>)
    ensures |urls| == |addrs|
    decreases |addrs|
  {
    if addrs == [] then [] else [UrlFor(e, addrs[0])] + RowUrls(e, addrs[1..])
  }

  /** Request `j` of a row is about address `j`. */
  lemma {:induction false} RowUrlsAt(e: Endpoint, addrs: seq<string>, j: nat)
    requires j < |addrs|
    ensures RowUrls(e, addrs)[j] == UrlFor(e, addrs[j])
    decreases j
  {
    if j > 0 {
      RowUrlsAt(e, addrs[1..], j - 1);
    }
  }

  /** The URLs of a sweep, endpoint by endpoint. */
  function AllUrls(es: seq<Endpoint>, addrs: seq<string>): seq<string>
    decreases |es|
  {
    if es == [] then [] else RowUrls(es[0], addrs) + AllUrls(es[1..], addrs)
  }

  lemma {:induction false} AllUrlsLength(es: seq<Endpoint>, addrs: seq<string>)
    ensures |AllUrls(es, addrs)| == |es| * |addrs|
    decreases |es|
  {
    if es != [] {
      AllUrlsLength(es[1..], addrs);
      Chunking.MulSucc(|es| - 1, |addrs|);
    }
  }

  /** The position of the `j`-th address at the `i`-th endpoint among the requests. */
  function RequestIndex(i: nat, j: nat, n: nat): nat {
    i * n + j
  }

  lemma {:induction false} AllUrlsAt(es: seq<Endpoint>, addrs: seq<string>, i: nat, j: nat)
    requires i < |es| && j < |addrs|
    ensures RequestIndex(i, j, |addrs|) < |AllUrls(es, addrs)|
    ensures AllUrls(es, addrs)[RequestIndex(i, j, |addrs|)] == UrlFor(es[i], addrs[j])
    decreases i
  {
    var n := |addrs|;
    AllUrlsLength(es[1..], addrs);
    if i == 0 {
      RowUrlsAt(es[0], addrs, j);
    } else {
      AllUrlsAt(es[1..], addrs, i - 1, j);
      assert RequestIndex(i, j, n) == n + RequestIndex(i - 1, j, n);
      assert es[1..][i - 1] == es[i];
    }
  }

  /** A sweep requests |endpoints| x |addresses| URLs, endpoint-major: request number
      `i * |addrs| + j` is the `j`-th address at the `i`-th endpoint. */
  lemma AllUrlsShape(es: seq<Endpoint>, addrs: seq<string>)
    ensures |AllUrls(es, addrs)| == |es| * |addrs|
    ensures forall i: nat, j: nat :: i < |es| && j < |addrs| ==>
      RequestIndex(i, j, |addrs|) < |AllUrls(es, addrs)| && AllUrls(es, addrs)[RequestIndex(i, j, |addrs|)] == UrlFor(es[i], addrs[j])
  {
    AllUrlsLength(es, addrs);
    forall i: nat, j: nat | i < |es| && j < |addrs|
      ensures RequestIndex(i, j, |addrs|) < |AllUrls(es, addrs)| && AllUrls(es, addrs)[RequestIndex(i, j, |addrs|)] == UrlFor(es[i], addrs[j])
    {
      AllUrlsAt(es, addrs, i, j);
    }
  }

  /** A string result only touches the table, the total and the log. */
  lemma {:induction false} CreditChunkRequests(acc: Acc, chunk: seq<string>, w: nat, kind: string)
    ensures CreditChunk(acc, chunk, w, kind).requests == acc.requests
    decreases |chunk|
  {
    if chunk != [] {
      var a1 := CreditAddress(acc, chunk[0], w, kind);
      CreditChunkRequests(a1, chunk[1..], w, kind);
      assert CreditChunk(acc, chunk, w, kind) == CreditChunk(a1, chunk[1..], w, kind);
    }
  }

  /** Each query requests exactly its own URL. */
  lemma QueryRequests(acc: Acc, e: Endpoint, address: string, oracle: string -> Response)
    ensures Query(acc, e, address, oracle).requests == acc.requests + [UrlFor(e, address)]
  {
    var sent := acc.(requests := acc.requests + [UrlFor(e, address)]);
    match oracle(UrlFor(e, address))
    case Failure =>
    case Ok(status, result) =>
      if status == 200 && !result.Falsy? {
        match result
        case Str(w) => CreditChunkRequests(sent, [address], w, e.kind);
        case Arr(es) => CreditEntriesEffect(sent, es, e.kind);
        case Other =>
      }
  }

  /** A row only appends its requests. */
  lemma {:induction false} RowRequests(acc: Acc, e: Endpoint, addrs: seq<string>, oracle: string -> Response)
    ensures Row(acc, e, addrs, oracle).requests == acc.requests + RowUrls(e, addrs)
    decreases |addrs|
  {
    if addrs != [] {
      var q := Query(acc, e, addrs[0], oracle);
      QueryRequests(acc, e, addrs[0], oracle);
      RowRequests(q, e, addrs[1..], oracle);
      ConcatAssoc(acc.requests, [UrlFor(e, addrs[0])], RowUrls(e, addrs[1..]));
    }
  }

  /** A sweep only appends its requests, which are `AllUrls`. */
  lemma {:induction false} SweepRequests(acc: Acc, es: seq<Endpoint>, addrs: seq<string>, oracle: string -> Response)
    ensures Sweep(acc, es, addrs, oracle).requests == acc.requests + AllUrls(es, addrs)
    decreases |es|
  {
    if es != [] {
      var r := Row(acc, es[0], addrs, oracle);
      RowRequests(acc, es[0], addrs, oracle);
      SweepRequests(r, es[1..], addrs, oracle);
      ConcatAssoc(acc.requests, RowUrls(es[0], addrs), AllUrls(es[1..], addrs));
    }
  }

  // ---------------------------------------------------------------------------------------
  // the combined balance agrees with Total ETH

  /** The per-address totals add up to `totalETH`. */
  predicate Consistent(acc: Acc) {
    Dicts.Valid(acc.table) && Total(acc.table) == Wei(acc.total)
  }

  /** A response whose array entries all have an owner, and whose nonzero entries are owned by
      a key of the table. */
  predicate CreditsRegistered(r: Response, owners: set<string>) {
    r.Ok? && r.result.Arr? ==>
      forall e :: e in r.result.entries ==> Owner(e).Some? && (e.balance != 0 ==> Owner(e).value in owners)
  }

  /** Every response of the sweep credits only registered keys. */
  predicate CreditsRegisteredFor(oracle: string -> Response, es: seq<Endpoint>, addrs: seq<string>, owners: set<string>) {
    forall e, a :: e in es && a in addrs ==> CreditsRegistered(oracle(UrlFor(e, a)), owners)
  }

  lemma {:induction false} CreditEntriesConsistent(acc: Acc, es: seq<Entry>, kind: string)
    requires Consistent(acc)
    requires forall e :: e in es ==> Owner(e).Some? && (e.balance != 0 ==> Owner(e).value in acc.table.values)
    ensures var u := CreditEntries(acc, es, kind);
      !u.threw && Consistent(u.acc) && u.acc.table.values.Keys == acc.table.values.Keys
    decreases |es|
  {
    if es != [] {
      assert es[0] in es;
      var o := Owner(es[0]).value;
      if es[0].balance != 0 {
        CreditTotal(acc.table, o, es[0].balance);
      }
      var a1 := CreditEntry(acc, o, es[0], kind);
      assert forall e :: e in es[1..] ==> e in es;
      CreditEntriesConsistent(a1, es[1..], kind);
    }
  }

  lemma {:induction false} CreditChunkConsistent(acc: Acc, chunk: seq<string>, w: nat, kind: string)
    requires Consistent(acc)
    requires forall a :: a in chunk ==> ToLower(a) in acc.table.values
    ensures Consistent(CreditChunk(acc, chunk, w, kind))
    ensures CreditChunk(acc, chunk, w, kind).table.values.Keys == acc.table.values.Keys
    decreases |chunk|
  {
    if chunk != [] {
      assert chunk[0] in chunk;
      CreditTotal(acc.table, ToLower(chunk[0]), w);
      var a1 := CreditAddress(acc, chunk[0], w, kind);
      assert forall a :: a in chunk[1..] ==> a in chunk;
      CreditChunkConsistent(a1, chunk[1..], w, kind);
      assert CreditChunk(acc, chunk, w, kind) == CreditChunk(a1, chunk[1..], w, kind);
    }
  }

  /** One query keeps the totals consistent when its response credits only keys of the table. */
  lemma QueryConsistent(acc: Acc, e: Endpoint, address: string, oracle: string -> Response)
    requires Consistent(acc) && ToLower(address) in acc.table.values
    requires CreditsRegistered(oracle(UrlFor(e, address)), acc.table.values.Keys)
    ensures Consistent(Query(acc, e, address, oracle))
    ensures Query(acc, e, address, oracle).table.values.Keys == acc.table.values.Keys
  {
    var sent := acc.(requests := acc.requests + [UrlFor(e, address)]);
    match oracle(UrlFor(e, address))
    case Failure =>
    case Ok(status, result) =>
      if status == 200 && !result.Falsy? {
        match result
        case Str(w) => CreditChunkConsistent(sent, [address], w, e.kind);
        case Arr(es) => CreditEntriesConsistent(sent, es, e.kind);
        case Other =>
      }
  }

  /** An array answer whose first entry credits a key of the table and whose second entry has
      neither `account` nor `address` breaks the balance invariant: the first credit stays in
      `totalBalance`, but the throw skips the assignment to `totalETH` (index.js:304), so the
      per-address totals exceed Total ETH by the credited balance. */
  lemma ThrowSplitsTotals(acc: Acc, e: Endpoint, address: string, w: nat, oracle: string -> Response)
    requires Consistent(acc) && address != "" && ToLower(address) in acc.table.values && w > 0
    requires oracle(UrlFor(e, address)) == Ok(200, Arr([Entry(Some(address), None, w), Entry(None, None, 0)]))
    ensures var q := Query(acc, e, address, oracle);
      && q.total == acc.total
      && Total(q.table) == Wei(acc.total + w)
      && !Consistent(q)
  {
    var sent := acc.(requests := acc.requests + [UrlFor(e, address)]);
    var es := [Entry(Some(address), None, w), Entry(None, None, 0)];
    assert Owner(es[0]) == Some(ToLower(address));
    var a1 := CreditEntry(sent, ToLower(address), es[0], e.kind);
    assert es[1..] == [Entry(None, None, 0)];
    assert CreditEntries(sent, es, e.kind) == Updated(a1, true);
    CreditTotal(acc.table, ToLower(address), w);
  }

  lemma {:induction false} RowConsistent(acc: Acc, e: Endpoint, addrs: seq<string>, oracle: string -> Response)
    requires Consistent(acc)
    requires forall a :: a in addrs ==> ToLower(a) in acc.table.values
    requires forall a :: a in addrs ==> CreditsRegistered(oracle(UrlFor(e, a)), acc.table.values.Keys)
    ensures Consistent(Row(acc, e, addrs, oracle))
    ensures Row(acc, e, addrs, oracle).table.values.Keys == acc.table.values.Keys
    decreases |addrs|
  {
    if addrs != [] {
      assert addrs[0] in addrs;
      QueryConsistent(acc, e, addrs[0], oracle);
      assert forall a :: a in addrs[1..] ==> a in addrs;
      RowConsistent(Query(acc, e, addrs[0], oracle), e, addrs[1..], oracle);
    }
  }

  /** A sweep whose responses all credit only keys of the table ends with the per-address totals adding up to
      `totalETH`, and with the keys it started with. */
  lemma {:induction false} SweepConsistent(acc: Acc, es: seq<Endpoint>, addrs: seq<string>, oracle: string -> Response)
    requires Consistent(acc)
    requires forall a :: a in addrs ==> ToLower(a) in acc.table.values
    requires CreditsRegisteredFor(oracle, es, addrs, acc.table.values.Keys)
    ensures Consistent(Sweep(acc, es, addrs, oracle))
    ensures Sweep(acc, es, addrs, oracle).table.values.Keys == acc.table.values.Keys
    decreases |es|
  {
    if es != [] {
      assert es[0] in es;
      RowConsistent(acc, es[0], addrs, oracle);
      assert forall e :: e in es[1..] ==> e in es;
      SweepConsistent(Row(acc, es[0], addrs, oracle), es[1..], addrs, oracle);
    }
  }

  // ---------------------------------------------------------------------------------------
  // the whole of fetchWalletBalances

  /** An empty registry: the fixed message is logged and returned and nothing is requested.
      Otherwise every endpoint is asked about every address, endpoint by endpoint. */
  lemma FetchRequests(reg: Dicts.Dict<string>, logs: seq<Event>, requests: seq<string>, oracle: string -> Response)
    requires Dicts.Valid(reg)
    ensures var o := Fetch(reg, logs, requests, oracle);
      && (o.report.NoWallets? <==> |reg.keys| == 0)
      && (|reg.keys| == 0 ==> o.report == NoWallets(NoWalletsText) && o.logs == logs + [NoWalletsLogged] && o.requests == requests)
      && (|reg.keys| != 0 ==> o.requests == requests + AllUrls(Endpoints, reg.keys))
      && |o.requests| == |requests| + 8 * |reg.keys|
  {
    if |reg.keys| != 0 {
      SweepRequests(Acc(ZeroTable(reg.keys), 0, logs, requests), Endpoints, reg.keys, oracle);
    }
    AllUrlsShape(Endpoints, reg.keys);
  }

  /** The zero table of a valid registry has exactly the registry's keys, and sums to 0. */
  lemma ZeroTableOfRegistry(reg: Dicts.Dict<string>)
    requires RegistryValid(reg)
    ensures var t := ZeroTable(reg.keys);
      Dicts.Valid(t) && Total(t) == Wei(0) && t.values.Keys == reg.values.Keys
  {
    var t := ZeroTable(reg.keys);
    ZeroTableShape(reg.keys);
    forall k | k in t.values ensures k in reg.values {
      var i :| 0 <= i < |reg.keys| && k == ToLower(reg.keys[i]);
      assert reg.keys[i] in reg.values;
    }
    forall k | k in reg.values ensures k in t.values {
      var i :| 0 <= i < |reg.keys| && reg.keys[i] == k;
    }
  }

  /** A sweep from the zero table of a valid registry, with responses that credit only registered keys,
      ends consistent. */
  lemma SweepFromZero(reg: Dicts.Dict<string>, es: seq<Endpoint>, logs: seq<Event>, requests: seq<string>, oracle: string -> Response)
    requires RegistryValid(reg)
    requires CreditsRegisteredFor(oracle, es, reg.keys, reg.values.Keys)
    ensures Consistent(Sweep(Acc(ZeroTable(reg.keys), 0, logs, requests), es, reg.keys, oracle))
  {
    var acc := Acc(ZeroTable(reg.keys), 0, logs, requests);
    ZeroTableOfRegistry(reg);
    forall a | a in reg.keys ensures ToLower(a) in acc.table.values {
      assert a in reg.values;
    }
    SweepConsistent(acc, es, reg.keys, oracle);
  }

  /** When every response credits only registered keys, the report lists every wallet and the
      combined balance is a number equal to Total ETH. */
  lemma FetchTotals(reg: Dicts.Dict<string>, logs: seq<Event>, requests: seq<string>, oracle: string -> Response)
    requires RegistryValid(reg) && |reg.keys| != 0
    requires CreditsRegisteredFor(oracle, Endpoints, reg.keys, reg.values.Keys)
    ensures var o := Fetch(reg, logs, requests, oracle);
      && o.report.Totals?
      && |o.report.lines| == |reg.keys|
      && o.report.combined == Wei(o.report.totalETH)
  {
    SweepFromZero(reg, Endpoints, logs, requests, oracle);
  }
}
