/**
 * The wallet-input session of the bot and the wallet registry it fills (index.js:106-107,
 * 127-206), as pure transitions on the bot's state. `/addwallet` and `/addbulk` open the one
 * process-wide session for the sender's chat; the next text message from that chat is read
 * either as bulk lines or as one `<address> <name>` entry. The class `Bot.Bot` runs these
 * transitions in place and is proved to agree with them.
 */
module WalletInput {
  import opened Options
  import opened JsStrings
  import Dicts
  import opened Activity

  /** The only check the handlers apply to an address before storing it (index.js:163, 182):
      `address.startsWith('0x') && address.length === 42`. */
  predicate IsAddress(a: string) {
    StartsWith(a, "0x") && |a| == 42
  }

  /** A key of the registry: an accepted address in lower case. */
  predicate IsKey(k: string) {
    IsAddress(k) && ToLower(k) == k
  }

  /** The `addresses` object: every key is a lowercased accepted address. */
  predicate RegistryValid(r: Dicts.Dict<string>) {
    Dicts.Valid(r) && forall k :: k in r.values ==> IsKey(k)
  }

  /** The globals the message handlers read and write, and the replies sent so far. */
  datatype State = State(
    addresses: Dicts.Dict<string>,
    logs: seq<Event>,
    waitingForWalletInfo: bool,
    chatIdForWallet: Option<ChatId>,
    outbox: seq<Reply>)

  /** A session is open exactly when it names a chat. */
  predicate Valid(s: State) {
    RegistryValid(s.addresses) && (s.waitingForWalletInfo <==> s.chatIdForWallet.Some?)
  }

  /** The state at start-up (index.js:57-58, 106-107). */
  function Initial(): (s: State)
    ensures Valid(s)
  {
    State(Dicts.Empty(), [], false, None, [])
  }

  /** The session is waiting for data from `chat`. */
  predicate Awaits(s: State, chat: ChatId) {
    s.waitingForWalletInfo && s.chatIdForWallet == Some(chat)
  }

  // ---------------------------------------------------------------------------------------
  // the commands that open a session

  /** `/addwallet` (index.js:127-135): remember the chat, prompt, log, start waiting. */
  function AddWallet(s: State, chat: ChatId): State {
    s.(chatIdForWallet := Some(chat),
       outbox := s.outbox + [Reply(chat, AddWalletPrompt)],
       logs := s.logs + [AddWalletRequestSent],
       waitingForWalletInfo := true)
  }

  /** `/addbulk` (index.js:138-147): prompt, start waiting for the chat, log. */
  function AddBulk(s: State, chat: ChatId): State {
    s.(outbox := s.outbox + [Reply(chat, AddBulkPrompt)],
       waitingForWalletInfo := true,
       chatIdForWallet := Some(chat),
       logs := s.logs + [AddBulkRequestSent])
  }

  /** Either command puts the session into "waiting for the sender's chat", whatever session
      was open before, and leaves the registry alone. */
  lemma CommandsOpenSession(s: State, chat: ChatId, other: ChatId)
    requires Valid(s)
    ensures Valid(AddWallet(s, chat)) && Valid(AddBulk(s, chat))
    ensures Awaits(AddWallet(s, chat), chat) && Awaits(AddBulk(s, chat), chat)
    ensures other != chat ==> !Awaits(AddWallet(s, chat), other) && !Awaits(AddBulk(s, chat), other)
    ensures AddWallet(s, chat).addresses == s.addresses && AddBulk(s, chat).addresses == s.addresses
  {
  }

  // ---------------------------------------------------------------------------------------
  // the single-entry pattern /^0x[a-fA-F0-9]{40}\s+.+$/

  /** `0x` followed by 40 hexadecimal digits. */
  predicate HexAddressPrefix(text: string) {
    |text| >= 42 && text[0] == '0' && text[1] == 'x' && forall k :: 2 <= k < 42 ==> IsHexDigit(text[k])
  }

  predicate NoLineTerminator(s: string) {
    forall k :: 0 <= k < |s| ==> !IsLineTerminator(s[k])
  }

  /** `t` matches `\s+.+` anchored at both ends: a whitespace character, then either the rest
      matches `.+` or it matches `\s+.+` again (the greedy `\s+` backtracks). */
  predicate SpacesThenText(t: string)
    decreases |t|
  {
    |t| >= 2 && IsSpace(t[0]) && (NoLineTerminator(t[1..]) || SpacesThenText(t[1..]))
  }

  /** The regular expression of index.js:178. */
  predicate MatchesEntryPattern(text: string)
    ensures MatchesEntryPattern(text) ==> |text| >= 44
  {
    HexAddressPrefix(text) && SpacesThenText(text[42..])
  }

  /** `t` splits after `k` characters into a non-empty run of whitespace and a non-empty rest
      without line terminators. */
  ghost predicate SplitsAt(t: string, k: int) {
    1 <= k < |t| && AllSpace(t[..k]) && NoLineTerminator(t[k..])
  }

  /** The recursive matcher agrees with the textbook reading of `\s+.+`. */
  lemma {:induction false} SpacesThenTextMeaning(t: string)
    ensures SpacesThenText(t) <==> exists k :: SplitsAt(t, k)
    decreases |t|
  {
    if |t| >= 2 {
      SpacesThenTextMeaning(t[1..]);
      if SpacesThenText(t) {
        if NoLineTerminator(t[1..]) {
          assert SplitsAt(t, 1);
        } else {
          var k :| SplitsAt(t[1..], k);
          assert t[1..][..k] == t[1..k + 1] && t[1..][k..] == t[k + 1..];
          assert SplitsAt(t, k + 1);
        }
      }
      if exists k :: SplitsAt(t, k) {
        var k :| SplitsAt(t, k);
        assert IsSpace(t[0]) by { assert t[..k][0] == t[0]; }
        if k > 1 {
          assert t[1..][..k - 1] == t[1..k] && t[1..][k - 1..] == t[k..];
          assert SplitsAt(t[1..], k - 1);
        } else {
          assert NoLineTerminator(t[1..]);
        }
      }
    }
  }

  // ---------------------------------------------------------------------------------------
  // reading a data message

  /** What a data message is taken to be (index.js:157, 178, 182). */
  datatype Input =
    | Bulk(lines: seq<string>)                 // it contains a tab or a newline
    | Single(address: string, name: string)    // it passes the pattern and the address check
    | BadAddress                               // it passes the pattern but not the address check
    | BadInput                                 // it fails the pattern

  /** The branch structure of the `message` handler. */
  function Classify(text: string): Input {
    if '\t' in text || '\n' in text then Bulk(SplitBy(text, {'\n', '\t'}))
    else if text != "" && StartsWith(text, "0x") && MatchesEntryPattern(text) then
      var parts := SplitBy(text, {' '});
      var address := parts[0];
      if IsAddress(address) then Single(address, Trim(Join(parts[1..], " "))) else BadAddress
    else BadInput
  }

  /** A one-line message is a valid single entry exactly when it matches the pattern and its
      43rd character is a plain space; the address is then its first 42 characters and
      the name the trimmed rest. When the pattern matches but that character is some other
      whitespace (CR, VT, FF, NBSP, ...), the `' '`-split token is longer than 42 and the
      address is rejected. */
  lemma ClassifySingle(text: string)
    requires '\t' !in text && '\n' !in text
    ensures Classify(text).Single? <==> MatchesEntryPattern(text) && text[42] == ' '
    ensures Classify(text).Single? ==> Classify(text) == Single(text[..42], Trim(text[43..]))
    ensures Classify(text).BadAddress? <==> MatchesEntryPattern(text) && text[42] != ' '
    ensures Classify(text).BadAddress? ==> IsSpace(text[42])
    ensures Classify(text).BadInput? <==> !MatchesEntryPattern(text)
  {
    if MatchesEntryPattern(text) {
      var head := text[..42];
      assert StartsWith(text, "0x") by { assert text[..2] == [text[0], text[1]]; }
      assert Free(head, {' '}) by {
        forall k | 0 <= k < 42 ensures head[k] != ' ' {
          if k >= 2 { assert IsHexDigit(text[k]); }
        }
      }
      assert text == head + text[42..];
      SplitFirstPiece(head, text[42..], {' '});
      var parts := SplitBy(text, {' '});
      assert StartsWith(head, "0x") by { assert head[..2] == text[..2]; }
      if text[42] == ' ' {
        assert text == head + [' '] + text[43..];
        SplitAfterPrefix(head, ' ', text[43..]);
        assert parts[1..] == SplitBy(text[43..], {' '});
        SplitJoin(text[43..], ' ');
      } else {
        assert |SplitBy(text[42..], {' '})[0]| >= 1;
      }
    }
  }

  /** An address and the name given with it. */
  datatype Pair = Pair(address: string, name: string)

  /** One bulk line (index.js:161-162): trim it, split on whitespace runs; the first field is
      the address, the other fields joined by single spaces and trimmed are the name. */
  function ParseLine(line: string): Pair {
    var fields := Fields(Trim(line));
    Pair(fields[0], Trim(Join(fields[1..], " ")))
  }

  /** The address of a bulk line is its first word and the name its remaining words joined by
      single spaces; a blank line gives an empty address and name. */
  lemma ParseLineWords(line: string)
    ensures var ws := Words(Trim(line));
      ParseLine(line) == if ws == [] then Pair("", "") else Pair(ws[0], Join(ws[1..], " "))
  {
    var t := Trim(line);
    var ws := Words(t);
    if t != [] {
      assert Fields(t) == ws && ws != [] by {
        FieldsOfTrimmed(t);
        assert TrimStart(t) == t;
      }
      assert Trim(Join(ws[1..], " ")) == Join(ws[1..], " ") by {
        WordsShape(t);
        assert WordList(ws[1..]) by {
          forall i | 0 <= i < |ws| - 1 ensures ws[1..][i] != [] && NoSpace(ws[1..][i]) {
            assert ws[1..][i] == ws[i + 1];
          }
        }
        JoinOfWordsTrimmed(ws[1..]);
      }
    } else {
      assert Fields(t) == [""];
      assert Trim(Join([], " ")) == "";
      assert ws == [];
    }
  }

  /** The key a parsed bulk line writes: its address lowercased, if the address passes the check. */
  function KeyOf(p: Pair): Option<string> {
    if IsAddress(p.address) then Some(ToLower(p.address)) else None
  }

  /** One iteration of the `forEach` of index.js:160-171, for a line parsed as `p`. */
  function Record(s: State, line: string, p: Pair): State {
    if IsAddress(p.address) then
      s.(addresses := Dicts.Put(s.addresses, ToLower(p.address), p.name),
         logs := s.logs + [BulkAdded(p.name, p.address)])
    else
      s.(logs := s.logs + [BulkInvalid(line)])
  }

  /** Every line of a bulk message, parsed. */
  function ParseLines(lines: seq<string>): (ps: seq<Pair>)
    ensures |ps| == |lines|
    decreases |lines|
  {
    if lines == [] then [] else [ParseLine(lines[0])] + ParseLines(lines[1..])
  }

  /** Line `i` parsed is entry `i`. */
  lemma {:induction false} ParseLinesAt(lines: seq<string>, i: nat)
    requires i < |lines|
    ensures ParseLines(lines)[i] == ParseLine(lines[i])
    decreases i
  {
    if i > 0 {
      ParseLinesAt(lines[1..], i - 1);
    }
  }

  /** The `forEach` over lines parsed as `ps`, line by line. */
  function RecordAll(s: State, lines: seq<string>, ps: seq<Pair>): State
    requires |ps| == |lines|
    decreases |lines|
  {
    if lines == [] then s else RecordAll(Record(s, lines[0], ps[0]), lines[1..], ps[1..])
  }

  /** The whole `forEach` of index.js:160-171. */
  function StoreLines(s: State, lines: seq<string>): State {
    RecordAll(s, lines, ParseLines(lines))
  }

  /** The log entry of a line parsed as `p`. */
  function EventOf(line: string, p: Pair): Event {
    if IsAddress(p.address) then BulkAdded(p.name, p.address) else BulkInvalid(line)
  }

  function Events(lines: seq<string>, ps: seq<Pair>): (es: seq<Event>)
    requires |ps| == |lines|
    ensures |es| == |lines|
    decreases |lines|
  {
    if lines == [] then [] else [EventOf(lines[0], ps[0])] + Events(lines[1..], ps[1..])
  }

  /** The keys the accepted lines write. */
  function NewKeys(ps: seq<Pair>): set<string>
    decreases |ps|
  {
    if ps == [] then {}
    else (match KeyOf(ps[0]) case Some(k) => {k} case None => {}) + NewKeys(ps[1..])
  }

  /** The name the last accepted line for key `k` gives, if any. */
  function LastName(ps: seq<Pair>, k: string): Option<string>
    decreases |ps|
  {
    if ps == [] then None
    else if LastName(ps[1..], k).Some? then LastName(ps[1..], k)
    else if KeyOf(ps[0]) == Some(k) then Some(ps[0].name)
    else None
  }

  /** The value a key has after the lines, given the value it had before them. */
  function After(ps: seq<Pair>, k: string, before: string): string {
    if LastName(ps, k).Some? then LastName(ps, k).value else before
  }

  /** One parsed line: the registry stays valid, one entry is logged, and the line's key, if any,
      is written with the line's name. */
  lemma RecordEffect(s: State, line: string, p: Pair)
    requires RegistryValid(s.addresses)
    ensures var r := Record(s, line, p);
      && RegistryValid(r.addresses)
      && r.logs == s.logs + [EventOf(line, p)]
      && s.addresses.keys <= r.addresses.keys
      && r.addresses.values == (match KeyOf(p) case Some(k) => s.addresses.values[k := p.name] case None => s.addresses.values)
      && r.waitingForWalletInfo == s.waitingForWalletInfo
      && r.chatIdForWallet == s.chatIdForWallet
      && r.outbox == s.outbox
  {
    if IsAddress(p.address) {
      LowerProperties(p.address);
      assert IsKey(ToLower(p.address));
    }
  }

  /** The bulk loop keeps the registry valid, removes no key, and touches nothing but the
      registry and the log. */
  lemma {:induction false} RecordAllValid(s: State, lines: seq<string>, ps: seq<Pair>)
    requires |ps| == |lines|
    requires RegistryValid(s.addresses)
    ensures var r := RecordAll(s, lines, ps);
      && RegistryValid(r.addresses)
      && s.addresses.keys <= r.addresses.keys
      && r.waitingForWalletInfo == s.waitingForWalletInfo
      && r.chatIdForWallet == s.chatIdForWallet
      && r.outbox == s.outbox
    decreases |lines|
  {
    if lines != [] {
      RecordEffect(s, lines[0], ps[0]);
      RecordAllValid(Record(s, lines[0], ps[0]), lines[1..], ps[1..]);
    }
  }

  /** One parsed line appends its own log entry. */
  lemma RecordLog(s: State, line: string, p: Pair)
    ensures Record(s, line, p).logs == s.logs + [EventOf(line, p)]
  {
  }

  /** The bulk loop appends exactly one log entry per line, in order. */
  lemma {:induction false} RecordAllLogs(s: State, lines: seq<string>, ps: seq<Pair>)
    requires |ps| == |lines|
    ensures RecordAll(s, lines, ps).logs == s.logs + Events(lines, ps)
    decreases |lines|
  {
    if lines != [] {
      var s1 := Record(s, lines[0], ps[0]);
      RecordLog(s, lines[0], ps[0]);
      RecordAllLogs(s1, lines[1..], ps[1..]);
      ConcatAssoc(s.logs, [EventOf(lines[0], ps[0])], Events(lines[1..], ps[1..]));
    }
  }

  /** Reading the lines from the front: the first line's key takes the first line's name,
      unless a later line overrides it. */
  lemma AfterFirst(ps: seq<Pair>, k: string, before: string)
    requires ps != []
    ensures After(ps, k, before) == After(ps[1..], k, if KeyOf(ps[0]) == Some(k) then ps[0].name else before)
  {
  }

  /** One parsed line writes its own key, if any. */
  lemma RecordValues(s: State, line: string, p: Pair)
    ensures Record(s, line, p).addresses.values
      == match KeyOf(p) case Some(k) => s.addresses.values[k := p.name] case None => s.addresses.values
  {
  }

  /** A line's key is stored iff its address passes the check (the last such line wins for a
      key); keys no line writes keep their values. */
  lemma {:induction false} RecordAllValues(s: State, lines: seq<string>, ps: seq<Pair>)
    requires |ps| == |lines|
    ensures var r := RecordAll(s, lines, ps);
      && r.addresses.values.Keys == s.addresses.values.Keys + NewKeys(ps)
      && (forall k :: k in r.addresses.values ==>
            r.addresses.values[k] == After(ps, k, if k in s.addresses.values then s.addresses.values[k] else ""))
    decreases |lines|
  {
    if lines != [] {
      var p := ps[0];
      var s1 := Record(s, lines[0], p);
      var v := s.addresses.values;
      var v1 := s1.addresses.values;
      RecordValues(s, lines[0], p);
      RecordAllValues(s1, lines[1..], ps[1..]);
      var r := RecordAll(s1, lines[1..], ps[1..]).addresses.values;
      forall k | k in r
        ensures r[k] == After(ps, k, if k in v then v[k] else "")
      {
        AfterFirst(ps, k, if k in v then v[k] else "");
        if KeyOf(p) == Some(k) {
          assert v1[k] == p.name;
        } else {
          assert (k in v1 <==> k in v) && (k in v ==> v1[k] == v[k]);
        }
      }
    }
  }

  // ---------------------------------------------------------------------------------------
  // the message handler

  /** The `message` handler of index.js:150-206, with every send succeeding. */
  function Message(s: State, chat: ChatId, text: string): State {
    if !Awaits(s, chat) then s
    else
      match Classify(text)
      case Bulk(lines) =>
        var t := StoreLines(s, lines);
        t.(outbox := t.outbox + [Reply(chat, BulkAddedReply)],
           waitingForWalletInfo := false,
           chatIdForWallet := None)
      case Single(address, name) =>
        s.(addresses := Dicts.Put(s.addresses, ToLower(address), name),
           outbox := s.outbox + [Reply(chat, WalletAddedReply(name, address))],
           logs := s.logs + [WalletAdded(name)],
           waitingForWalletInfo := false,
           chatIdForWallet := None)
      case BadAddress =>
        s.(outbox := s.outbox + [Reply(chat, InvalidAddressReply)],
           logs := s.logs + [InvalidAddressFormat])
      case BadInput =>
        s.(outbox := s.outbox + [Reply(chat, InvalidInputReply)],
           logs := s.logs + [InvalidInputFormat])
  }

  /** A message while no session waits for its chat changes nothing. */
  lemma MessageIgnored(s: State, chat: ChatId, text: string)
    requires !Awaits(s, chat)
    ensures Message(s, chat, text) == s
  {
  }

  /** Every message keeps the state valid (all keys lowercased accepted addresses) and never
      removes a key. */
  lemma MessageKeepsRegistry(s: State, chat: ChatId, text: string)
    requires Valid(s)
    ensures Valid(Message(s, chat, text))
    ensures s.addresses.keys <= Message(s, chat, text).addresses.keys
    ensures s.addresses.values.Keys <= Message(s, chat, text).addresses.values.Keys
  {
    if Awaits(s, chat) {
      match Classify(text)
      case Bulk(lines) => RecordAllValid(s, lines, ParseLines(lines));
      case Single(address, name) => LowerProperties(address);
      case BadAddress =>
      case BadInput =>
    }
  }

  /** A one-line message matching the pattern with a plain space after the address stores the
      lowercased address with the trimmed rest as its name, confirms it, and closes the session. */
  lemma SingleAccepted(s: State, chat: ChatId, text: string)
    requires Awaits(s, chat)
    requires '\t' !in text && '\n' !in text
    requires MatchesEntryPattern(text) && text[42] == ' '
    ensures var r := Message(s, chat, text);
      && r.addresses.values == s.addresses.values[ToLower(text[..42]) := Trim(text[43..])]
      && r.logs == s.logs + [WalletAdded(Trim(text[43..]))]
      && r.outbox == s.outbox + [Reply(chat, WalletAddedReply(Trim(text[43..]), text[..42]))]
      && !r.waitingForWalletInfo && r.chatIdForWallet == None
  {
    ClassifySingle(text);
  }

  /** Any other one-line message leaves the registry as it was, logs one entry, sends the
      matching error reply, and keeps the session waiting for the same chat. */
  lemma SingleRejected(s: State, chat: ChatId, text: string)
    requires Awaits(s, chat)
    requires '\t' !in text && '\n' !in text
    requires !(MatchesEntryPattern(text) && text[42] == ' ')
    ensures var r := Message(s, chat, text);
      && r.addresses == s.addresses
      && Awaits(r, chat)
      && r.logs == s.logs + [if MatchesEntryPattern(text) then InvalidAddressFormat else InvalidInputFormat]
      && r.outbox == s.outbox + [Reply(chat, if MatchesEntryPattern(text) then InvalidAddressReply else InvalidInputReply)]
  {
    ClassifySingle(text);
  }

  /** A message with a tab or newline is split on every tab and newline; each piece logs exactly
      one entry, accepted pieces write their keys, and the success reply is sent and the session
      closed even when every piece was rejected. */
  lemma BulkProcessed(s: State, chat: ChatId, text: string)
    requires Valid(s) && Awaits(s, chat)
    requires '\t' in text || '\n' in text
    ensures var r := Message(s, chat, text);
      var lines := SplitBy(text, {'\n', '\t'});
      var ps := ParseLines(lines);
      && |r.logs| == |s.logs| + CountIn(text, {'\n', '\t'}) + 1
      && r.logs == s.logs + Events(lines, ps)
      && r.addresses.values.Keys == s.addresses.values.Keys + NewKeys(ps)
      && (forall k :: k in r.addresses.values ==>
            r.addresses.values[k] == After(ps, k, if k in s.addresses.values then s.addresses.values[k] else ""))
      && r.outbox == s.outbox + [Reply(chat, BulkAddedReply)]
      && !r.waitingForWalletInfo && r.chatIdForWallet == None
  {
    var lines := SplitBy(text, {'\n', '\t'});
    var ps := ParseLines(lines);
    RecordAllValid(s, lines, ps);
    RecordAllLogs(s, lines, ps);
    RecordAllValues(s, lines, ps);
    SplitCount(text, {'\n', '\t'});
  }
}
