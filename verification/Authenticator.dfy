/**
 * The authenticator: a server that keeps a configuration which commands
 * extend, and that answers each authentication request of libzmq by it.
 */
module Authentication {
  import opened Wrappers

  // ---- Commands ----

  datatype Command =
    | Allow(address: string)
    | Deny(address: string)
    | Domain(name: string)
    | Plain(user: string, password: string)
    | Curve(key: string)
    | Gssapi
    | Verbose(flag: string)
    | Terminate

  /** The message a command is sent as. */
  function MessageOf(c: Command): seq<string> {
    match c
    case Allow(address) => ["ALLOW", address]
    case Deny(address) => ["DENY", address]
    case Domain(name) => ["DOMAIN", name]
    case Plain(user, password) => ["PLAIN", user, password]
    case Curve(key) => ["CURVE", key]
    case Gssapi => ["GSSAPI"]
    case Verbose(flag) => ["VERBOSE", flag]
    case Terminate => ["TERMINATE"]
  }

  const ANY_KEY: string := "CURVE_ALLOW_ANY"

  datatype Config = Config(
    whitelist: set<string>,
    blacklist: set<string>,
    passwords: map<string, string>,
    clientKeys: set<string>,
    domain: string,
    curveAllowAny: bool,
    terminated: bool,
    verbose: bool)

  const INITIAL: Config := Config({}, {}, map[], {}, "", false, false, false)

  /** What a command does to the configuration. */
  function Applied(c: Config, command: Command): Config {
    match command
    case Allow(address) => c.(whitelist := c.whitelist + {address})
    case Deny(address) => c.(blacklist := c.blacklist + {address})
    case Domain(name) => c.(domain := name)
    case Plain(user, password) => if user in c.passwords then c else c.(passwords := c.passwords[user := password])
    case Curve(key) =>
      if key == ANY_KEY then c.(curveAllowAny := true)
      else c.(curveAllowAny := false, clientKeys := c.clientKeys + {key})
    case Gssapi => c
    case Verbose(flag) => c.(verbose := flag == "true")
    case Terminate => c.(terminated := true)
  }

  function AllApplied(history: seq<Command>): Config {
    if history == [] then INITIAL else Applied(AllApplied(history[..|history| - 1]), history[|history| - 1])
  }

  // ---- The configuration as a function of the history ----

  function AllowedBy(history: seq<Command>): set<string> {
    set i | 0 <= i < |history| && history[i].Allow? :: history[i].address
  }

  function DeniedBy(history: seq<Command>): set<string> {
    set i | 0 <= i < |history| && history[i].Deny? :: history[i].address
  }

  function KeysOf(history: seq<Command>): set<string> {
    set i | 0 <= i < |history| && history[i].Curve? && history[i].key != ANY_KEY :: history[i].key
  }

  /** The first password configured for a user. */
  function FirstPassword(history: seq<Command>, user: string): Option<string> {
    if history == [] then None
    else if history[0].Plain? && history[0].user == user then Some(history[0].password)
    else FirstPassword(history[1..], user)
  }

  /** Whether the last CURVE command was the wildcard. */
  function AnyKeyLast(history: seq<Command>): bool {
    if history == [] then false
    else
      var last := history[|history| - 1];
      if last.Curve? then last.key == ANY_KEY else AnyKeyLast(history[..|history| - 1])
  }

  /** The domain named last, and whether the last VERBOSE command said true. */
  function DomainLast(history: seq<Command>): string {
    if history == [] then ""
    else
      var last := history[|history| - 1];
      if last.Domain? then last.name else DomainLast(history[..|history| - 1])
  }

  function VerboseLast(history: seq<Command>): bool {
    if history == [] then false
    else
      var last := history[|history| - 1];
      if last.Verbose? then last.flag == "true" else VerboseLast(history[..|history| - 1])
  }

  lemma {:induction false} PasswordAppended(history: seq<Command>, c: Command, user: string)
    ensures FirstPassword(history + [c], user) ==
            if FirstPassword(history, user).Some? then FirstPassword(history, user)
            else if c.Plain? && c.user == user then Some(c.password) else None
  {
    if history == [] {
      assert (history + [c])[1..] == [];
    } else {
      assert (history + [c])[1..] == history[1..] + [c];
      PasswordAppended(history[1..], c, user);
    }
  }

  lemma SetsAppended(history: seq<Command>, c: Command)
    ensures AllowedBy(history + [c]) == AllowedBy(history) + if c.Allow? then {c.address} else {}
    ensures DeniedBy(history + [c]) == DeniedBy(history) + if c.Deny? then {c.address} else {}
    ensures KeysOf(history + [c]) == KeysOf(history) + if c.Curve? && c.key != ANY_KEY then {c.key} else {}
    ensures AnyKeyLast(history + [c]) == if c.Curve? then c.key == ANY_KEY else AnyKeyLast(history)
  {
    var more := history + [c];
    assert more[..|more| - 1] == history && more[|history|] == c;
    assert forall i | 0 <= i < |history| :: more[i] == history[i];
    forall x | x in AllowedBy(history) ensures x in AllowedBy(more) {
      var i :| 0 <= i < |history| && history[i].Allow? && history[i].address == x;
      assert more[i].address == x;
    }
    forall x | x in DeniedBy(history) ensures x in DeniedBy(more) {
      var i :| 0 <= i < |history| && history[i].Deny? && history[i].address == x;
      assert more[i].address == x;
    }
    forall x | x in KeysOf(history) ensures x in KeysOf(more) {
      var i :| 0 <= i < |history| && history[i].Curve? && history[i].key != ANY_KEY && history[i].key == x;
      assert more[i].key == x;
    }
  }

  /** What a configuration says, read off the history: the white and black
      lists are all the addresses allowed and denied, a user's password is the
      first one configured, the keys are all but the wildcard, and the wildcard
      is on exactly when it was the last CURVE command. */
  ghost predicate Reflects(c: Config, history: seq<Command>) {
    && c.whitelist == AllowedBy(history)
    && c.blacklist == DeniedBy(history)
    && c.clientKeys == KeysOf(history)
    && c.curveAllowAny == AnyKeyLast(history)
    && (forall user :: FirstPassword(history, user) == if user in c.passwords then Some(c.passwords[user]) else None)
    && (c.terminated <==> Terminate in history)
  }

  lemma ReflectsAppended(c: Config, history: seq<Command>, command: Command)
    requires Reflects(c, history)
    ensures Reflects(Applied(c, command), history + [command])
  {
    SetsAppended(history, command);
    forall user ensures FirstPassword(history + [command], user) ==
                        if user in Applied(c, command).passwords then Some(Applied(c, command).passwords[user]) else None
    {
      PasswordAppended(history, command, user);
    }
  }

  lemma {:induction false} ConfigOfHistory(history: seq<Command>)
    ensures Reflects(AllApplied(history), history)
  {
    if history != [] {
      var before := history[..|history| - 1];
      assert history == before + [history[|history| - 1]];
      ConfigOfHistory(before);
      ReflectsAppended(AllApplied(before), before, history[|history| - 1]);
    }
  }

  /** Domain and verbosity are the last ones given. */
  lemma {:induction false} LastGivenCounts(history: seq<Command>)
    ensures AllApplied(history).domain == DomainLast(history)
    ensures AllApplied(history).verbose <==> VerboseLast(history)
  {
    if history != [] {
      LastGivenCounts(history[..|history| - 1]);
    }
  }

  // ---- Requests ----

  datatype ZapRequest = ZapRequest(
    version: string, sequence: string, domain: string, address: string, identity: string, mechanism: string,
    username: string, password: string, clientKey: string, principal: string)

  datatype Incoming = NoMessage | Request(request: ZapRequest) | TooShort | WrongVersion

  /** A request from the frames of a message. `z85` is the encoding of keys. */
  function Decoded(frames: seq<string>, z85: string -> string): Incoming {
    if |frames| == 0 then NoMessage
    else if |frames| < 6 then TooShort
    else if frames[0] != "1.0" then WrongVersion
    else
      var r := ZapRequest(frames[0], frames[1], frames[2], frames[3], frames[4], frames[5], "", "", "", "");
      match frames[5]
      case "PLAIN" =>
        if |frames| < 8 then TooShort else Request(r.(username := frames[6], password := frames[7]))
      case "CURVE" => if |frames| < 7 then TooShort else Request(r.(clientKey := z85(frames[6])))
      case "GSSAPI" => if |frames| < 7 then TooShort else Request(r.(principal := frames[6]))
      case _ => Request(r)
  }

  /** The frames a client's request comes in, with `key` the raw CURVE key. */
  function FramesOf(r: ZapRequest, key: string): seq<string> {
    [r.version, r.sequence, r.domain, r.address, r.identity, r.mechanism] +
    match r.mechanism
    case "PLAIN" => [r.username, r.password]
    case "CURVE" => [key]
    case "GSSAPI" => [r.principal]
    case _ => []
  }

  /** Only the fields of the request's own mechanism are set. */
  predicate OwnFieldsOnly(r: ZapRequest, key: string, z85: string -> string) {
    && (r.mechanism != "PLAIN" ==> r.username == r.password == "")
    && r.clientKey == (if r.mechanism == "CURVE" then z85(key) else "")
    && (r.mechanism != "GSSAPI" ==> r.principal == "")
  }

  /** A message is taken for the request r exactly when it begins with the
      frames of r; further frames do not matter. */
  lemma RequestsAreUnderstood(frames: seq<string>, r: ZapRequest, z85: string -> string)
    ensures Decoded(frames, z85) == Request(r) <==>
            r.version == "1.0" &&
            exists key :: OwnFieldsOnly(r, key, z85) && FramesOf(r, key) <= frames
    ensures Decoded(frames, z85) == Request(r) ==>
            && |frames| >= 6 && frames[..6] == [r.version, r.sequence, r.domain, r.address, r.identity, r.mechanism]
            && (r.mechanism == "PLAIN" ==> |frames| >= 8 && r.username == frames[6] && r.password == frames[7])
            && (r.mechanism == "CURVE" ==> |frames| >= 7 && r.clientKey == z85(frames[6]))
            && (r.mechanism == "GSSAPI" ==> |frames| >= 7 && r.principal == frames[6])
  {
    if Decoded(frames, z85) == Request(r) {
      var key := if r.mechanism == "CURVE" then frames[6] else "";
      assert OwnFieldsOnly(r, key, z85) && FramesOf(r, key) <= frames;
    }
    if key :| r.version == "1.0" && OwnFieldsOnly(r, key, z85) && FramesOf(r, key) <= frames {
      BeginsWith(frames, r, key);
      assert Decoded(frames, z85) == Request(r);
    }
  }

  /** Frames that hold no request: none at all; too few of them; or those of
      another version. */
  lemma RequestsFail(frames: seq<string>, z85: string -> string)
    ensures Decoded(frames, z85) == NoMessage <==> frames == []
    ensures Decoded(frames, z85) == WrongVersion <==> |frames| >= 6 && frames[0] != "1.0"
    ensures Decoded(frames, z85) == TooShort <==>
            || 0 < |frames| < 6
            || (|frames| == 6 && frames[0] == "1.0" && frames[5] in ["PLAIN", "CURVE", "GSSAPI"])
            || (|frames| == 7 && frames[0] == "1.0" && frames[5] == "PLAIN")
  {
  }

  lemma BeginsWith(frames: seq<string>, r: ZapRequest, key: string)
    requires FramesOf(r, key) <= frames
    ensures |frames| >= 6 && frames[0] == r.version && frames[1] == r.sequence && frames[2] == r.domain
    ensures frames[3] == r.address && frames[4] == r.identity && frames[5] == r.mechanism
    ensures r.mechanism == "PLAIN" ==> |frames| >= 8 && frames[6] == r.username && frames[7] == r.password
    ensures r.mechanism == "CURVE" ==> |frames| >= 7 && frames[6] == key
    ensures r.mechanism == "GSSAPI" ==> |frames| >= 7 && frames[6] == r.principal
  {
    var begin := FramesOf(r, key);
    assert forall i | 0 <= i < |begin| :: begin[i] == frames[i];
    assert begin[0] == r.version && begin[1] == r.sequence && begin[2] == r.domain;
  }

  /** What becomes of a request: a reply goes out, an exception leaves the
      server, or an assertion fails. */
  datatype Outcome = Replied(reply: seq<string>) | Threw | Aborted

  /** The frames of a reply; the last one is the metadata, here always empty. */
  function Reply(version: string, sequence: string, code: string, text: string, user: string): seq<string> {
    [version, sequence, code, text, user, ""]
  }

  datatype Verdict = Granted(user: string) | Refused

  /** The decision as a function of the commands given so far. An address that
      is listed decides first: if any address was ever allowed, only those are;
      otherwise the denied ones are not. Then the mechanism decides, and one
      that is not known is let in only if a list has let the address in. */
  ghost function Decision(history: seq<Command>, r: ZapRequest): Verdict {
    var allowed, denied := AllowedBy(history), DeniedBy(history);
    if (if allowed != {} then r.address !in allowed else r.address in denied) then Refused
    else
      match r.mechanism
      case "NULL" => Granted("")
      case "PLAIN" => if FirstPassword(history, r.username) == Some(r.password) then Granted(r.username) else Refused
      case "CURVE" => if AnyKeyLast(history) || r.clientKey in KeysOf(history) then Granted(r.clientKey) else Refused
      case "GSSAPI" => Granted("")
      case _ => if allowed != {} || denied != {} then Granted("") else Refused
  }

  ghost function Answer(history: seq<Command>, incoming: Incoming): Outcome {
    match incoming
    case NoMessage => Replied(Reply("", "", "500", "Internal error", ""))
    case TooShort => Threw
    case WrongVersion => Aborted
    case Request(r) =>
      match Decision(history, r)
      case Granted(user) => Replied(Reply(r.version, r.sequence, "200", "OK", user))
      case Refused => Replied(Reply(r.version, r.sequence, "400", "No access", ""))
  }

  // ---- What the decision does not depend on ----

  function WithoutDenials(history: seq<Command>): seq<Command> {
    if history == [] then []
    else
      var last := history[|history| - 1];
      WithoutDenials(history[..|history| - 1]) + if last.Deny? then [] else [last]
  }

  /** Without DOMAIN, VERBOSE and GSSAPI. */
  function WithoutTalk(history: seq<Command>): seq<Command> {
    if history == [] then []
    else
      var last := history[|history| - 1];
      WithoutTalk(history[..|history| - 1]) + if last.Domain? || last.Verbose? || last.Gssapi? then [] else [last]
  }

  /** Two histories say the same, but for denials if `denials` is false. */
  ghost predicate Alike(g: seq<Command>, h: seq<Command>, denials: bool) {
    && AllowedBy(g) == AllowedBy(h) && KeysOf(g) == KeysOf(h) && AnyKeyLast(g) == AnyKeyLast(h)
    && (forall user :: FirstPassword(g, user) == FirstPassword(h, user))
    && (denials ==> DeniedBy(g) == DeniedBy(h))
  }

  lemma AlikeAppended(g: seq<Command>, h: seq<Command>, denials: bool, c: Command)
    requires Alike(g, h, denials)
    ensures Alike(g + [c], h + [c], denials)
    ensures c.Domain? || c.Verbose? || c.Gssapi? || (c.Deny? && !denials) ==> Alike(g, h + [c], denials)
  {
    SetsAppended(g, c);
    SetsAppended(h, c);
    forall user ensures FirstPassword(g + [c], user) == FirstPassword(h + [c], user) &&
                        (!c.Plain? ==> FirstPassword(g, user) == FirstPassword(h + [c], user))
    {
      PasswordAppended(g, c, user);
      PasswordAppended(h, c, user);
    }
  }

  lemma {:induction false} DropsAlike(history: seq<Command>)
    ensures Alike(WithoutDenials(history), history, false)
    ensures Alike(WithoutTalk(history), history, true)
  {
    if history != [] {
      var before, last := history[..|history| - 1], history[|history| - 1];
      DropsAlike(before);
      AlikeAppended(WithoutDenials(before), before, false, last);
      AlikeAppended(WithoutTalk(before), before, true, last);
      assert history == before + [last];
      assert WithoutDenials(before) + [] == WithoutDenials(before) && WithoutTalk(before) + [] == WithoutTalk(before);
    }
  }

  lemma AlikeDecide(g: seq<Command>, h: seq<Command>, denials: bool, incoming: Incoming)
    requires Alike(g, h, denials) && (denials || AllowedBy(h) != {})
    ensures Answer(g, incoming) == Answer(h, incoming)
  {
  }

  /** Once an address was allowed, the DENY commands make no difference. */
  lemma DenyIsMootAfterAllow(history: seq<Command>, incoming: Incoming)
    requires exists i :: 0 <= i < |history| && history[i].Allow?
    ensures Answer(WithoutDenials(history), incoming) == Answer(history, incoming)
  {
    DropsAlike(history);
    var i :| 0 <= i < |history| && history[i].Allow?;
    assert history[i].address in AllowedBy(history);
    AlikeDecide(WithoutDenials(history), history, false, incoming);
  }

  /** DOMAIN, VERBOSE and GSSAPI commands never make a difference. */
  lemma TalkIsMoot(history: seq<Command>, incoming: Incoming)
    ensures Answer(WithoutTalk(history), incoming) == Answer(history, incoming)
  {
    DropsAlike(history);
    AlikeDecide(WithoutTalk(history), history, true, incoming);
  }

  /** A reply echoes version and sequence, and names a user only with a grant
      for PLAIN or CURVE. */
  lemma RepliesAreWellFormed(history: seq<Command>, r: ZapRequest)
    ensures var a := Answer(history, Request(r));
            && a.Replied? && |a.reply| == 6
            && a.reply[0] == r.version && a.reply[1] == r.sequence
            && (a.reply[4] != "" ==> a.reply[2] == "200" && (r.mechanism == "PLAIN" || r.mechanism == "CURVE"))
  {
  }

  // ---- The replies, written out ----

  /** The address was allowed, or none ever was and it was not denied. */
  ghost predicate AddressPasses(history: seq<Command>, address: string) {
    if exists i :: 0 <= i < |history| && history[i].Allow? then Allow(address) in history
    else Deny(address) !in history
  }

  /** The i-th command is the first to give the user a password, and gives this. */
  ghost predicate FirstGivenAt(history: seq<Command>, i: nat, user: string, password: string) {
    && i < |history| && history[i] == Plain(user, password)
    && forall j | 0 <= j < i :: !(history[j].Plain? && history[j].user == user)
  }

  /** The i-th command is the last CURVE command, and is the wildcard. */
  ghost predicate AnyKeyAt(history: seq<Command>, i: nat) {
    && i < |history| && history[i] == Curve("CURVE_ALLOW_ANY")
    && forall j | i < j < |history| :: !history[j].Curve?
  }

  /** The mechanism's own condition: the password is the first one configured for
      the user; the key was configured, or the last CURVE command was the wildcard;
      an unknown mechanism needs a list that has let the address in. */
  ghost predicate MechanismPasses(history: seq<Command>, r: ZapRequest) {
    match r.mechanism
    case "NULL" => true
    case "PLAIN" => exists i: nat :: FirstGivenAt(history, i, r.username, r.password)
    case "CURVE" =>
      || (r.clientKey != "CURVE_ALLOW_ANY" && Curve(r.clientKey) in history)
      || exists i: nat :: AnyKeyAt(history, i)
    case "GSSAPI" => true
    case _ => exists i :: 0 <= i < |history| && (history[i].Allow? || history[i].Deny?)
  }

  function UserOf(r: ZapRequest): string {
    if r.mechanism == "PLAIN" then r.username else if r.mechanism == "CURVE" then r.clientKey else ""
  }

  lemma FirstGivenLater(history: seq<Command>, i: nat, user: string, password: string)
    requires i + 1 < |history| && !(history[0].Plain? && history[0].user == user)
    ensures FirstGivenAt(history, i + 1, user, password) <==> FirstGivenAt(history[1..], i, user, password)
  {
    var rest := history[1..];
    assert forall j | 0 < j < |history| :: history[j] == rest[j - 1];
    assert forall j | 0 <= j < |rest| :: rest[j] == history[j + 1];
  }

  lemma {:induction false} FirstPasswordIs(history: seq<Command>, user: string, password: string)
    ensures FirstPassword(history, user) == Some(password) <==> exists i: nat :: FirstGivenAt(history, i, user, password)
  {
    if history != [] {
      FirstPasswordIs(history[1..], user, password);
      if history[0].Plain? && history[0].user == user {
        assert FirstGivenAt(history, 0, user, history[0].password);
      } else {
        if i: nat :| FirstGivenAt(history, i, user, password) {
          FirstGivenLater(history, i - 1, user, password);
        }
        if i: nat :| FirstGivenAt(history[1..], i, user, password) {
          FirstGivenLater(history, i, user, password);
        }
      }
    }
  }

  lemma AnyKeyBefore(history: seq<Command>, i: nat)
    requires i + 1 < |history| && !history[|history| - 1].Curve?
    ensures AnyKeyAt(history, i) <==> AnyKeyAt(history[..|history| - 1], i)
  {
    assert forall j | 0 <= j < |history| - 1 :: history[..|history| - 1][j] == history[j];
  }

  lemma {:induction false} AnyKeyLastIs(history: seq<Command>)
    ensures AnyKeyLast(history) <==> exists i: nat :: AnyKeyAt(history, i)
  {
    if history != [] {
      var last, before := |history| - 1, history[..|history| - 1];
      AnyKeyLastIs(before);
      if history[last].Curve? {
        assert AnyKeyAt(history, last) <==> history[last] == Curve("CURVE_ALLOW_ANY");
      } else {
        if i: nat :| AnyKeyAt(history, i) {
          AnyKeyBefore(history, i);
        }
        if i: nat :| AnyKeyAt(before, i) {
          AnyKeyBefore(history, i);
        }
      }
    }
  }

  lemma ListsAre(history: seq<Command>, address: string)
    ensures address in AllowedBy(history) <==> Allow(address) in history
    ensures address in DeniedBy(history) <==> Deny(address) in history
    ensures AllowedBy(history) != {} <==> exists i :: 0 <= i < |history| && history[i].Allow?
    ensures DeniedBy(history) != {} <==> exists i :: 0 <= i < |history| && history[i].Deny?
  {
    if AllowedBy(history) != {} {
      var x :| x in AllowedBy(history);
    }
    if DeniedBy(history) != {} {
      var x :| x in DeniedBy(history);
    }
    if i :| 0 <= i < |history| && history[i].Allow? {
      assert history[i].address in AllowedBy(history);
    }
    if i :| 0 <= i < |history| && history[i].Deny? {
      assert history[i].address in DeniedBy(history);
    }
  }

  /** The reply to a request, frame by frame: 200 exactly when the address passes
      and the mechanism's condition holds, and 400 otherwise. */
  lemma ReplyIs(history: seq<Command>, r: ZapRequest)
    ensures Answer(history, Request(r)) ==
            Replied(if AddressPasses(history, r.address) && MechanismPasses(history, r)
                    then [r.version, r.sequence, "200", "OK", UserOf(r), ""]
                    else [r.version, r.sequence, "400", "No access", "", ""])
  {
    ListsAre(history, r.address);
    FirstPasswordIs(history, r.username, r.password);
    AnyKeyLastIs(history);
    assert r.clientKey in KeysOf(history) <==> r.clientKey != "CURVE_ALLOW_ANY" && Curve(r.clientKey) in history;
  }

  // ---- The messages of commands ----

  datatype ParsedCommand = NoCommand | Recognised(command: Command) | PartMissing | UnknownCommand

  /** What handle_command makes of a message; a part that is missing throws,
      an unknown command fails an assertion. */
  function CommandOf(message: seq<string>): ParsedCommand {
    if message == [] then NoCommand
    else
      match message[0]
      case "ALLOW" => if |message| < 2 then PartMissing else Recognised(Allow(message[1]))
      case "DENY" => if |message| < 2 then PartMissing else Recognised(Deny(message[1]))
      case "DOMAIN" => if |message| < 2 then PartMissing else Recognised(Domain(message[1]))
      case "PLAIN" => if |message| < 3 then PartMissing else Recognised(Plain(message[1], message[2]))
      case "CURVE" => if |message| < 2 then PartMissing else Recognised(Curve(message[1]))
      case "GSSAPI" => Recognised(Gssapi)
      case "VERBOSE" => if |message| < 2 then PartMissing else Recognised(Verbose(message[1]))
      case "TERMINATE" => Recognised(Terminate)
      case _ => UnknownCommand
  }

  /** The server takes a message for the command c exactly when it begins with
      what the senders of auth send for c. */
  lemma CommandsAreUnderstood(message: seq<string>, c: Command)
    ensures CommandOf(message) == Recognised(c) <==> MessageOf(c) <= message
  {
    var sent := MessageOf(c);
    if sent <= message {
      assert message[0] == sent[0];
      assert |sent| > 1 ==> message[1] == sent[1];
      assert |sent| > 2 ==> message[2] == sent[2];
    }
    if CommandOf(message) == Recognised(c) {
      assert |sent| <= |message| && message[0] == sent[0];
    }
  }

  /** Each command by its name and its parts. */
  lemma CommandsByName(message: seq<string>)
    requires CommandOf(message).Recognised?
    ensures var c := CommandOf(message).command;
            match message[0]
            case "ALLOW" => c == Allow(message[1])
            case "DENY" => c == Deny(message[1])
            case "DOMAIN" => c == Domain(message[1])
            case "PLAIN" => c == Plain(message[1], message[2])
            case "CURVE" => c == Curve(message[1])
            case "GSSAPI" => c == Gssapi
            case "VERBOSE" => c == Verbose(message[1])
            case _ => message[0] == "TERMINATE" && c == Terminate
  {
  }

  /** Nothing is made of an empty message; one that lacks a part of the command
      it names throws; and one that names none is unknown. */
  lemma CommandsFail(message: seq<string>)
    ensures CommandOf(message) == NoCommand <==> message == []
    ensures CommandOf(message) == PartMissing <==>
            || (|message| == 1 && message[0] in ["ALLOW", "DENY", "DOMAIN", "PLAIN", "CURVE", "VERBOSE"])
            || (|message| == 2 && message[0] == "PLAIN")
    ensures CommandOf(message) == UnknownCommand <==>
            message != [] &&
            message[0] !in ["ALLOW", "DENY", "DOMAIN", "PLAIN", "CURVE", "GSSAPI", "VERBOSE", "TERMINATE"]
  {
  }

  // ---- The server loop ----

  /** What one poll of the server finds: it is interrupted, it fails with another
      error, or a request or a command or both are there. */
  datatype Round = PollInterrupted | PollFailed | Ready(request: Option<Incoming>, command: Option<seq<string>>)

  datatype End = LoopOver | ServerThrew | ServerAborted | StillServing

  /** What a run of the loop has done: the replies sent, the oks sent, the
      commands taken in, the rounds it took, and how it ended. */
  datatype Service = Service(replies: seq<seq<string>>, oks: nat, history: seq<Command>, rounds: nat, end: End)

  ghost function ServeRequest(s: Service, request: Option<Incoming>): Service {
    match request
    case None => s
    case Some(incoming) =>
      match Answer(s.history, incoming)
      case Replied(reply) => s.(replies := s.replies + [reply])
      case Threw => s.(end := ServerThrew)
      case Aborted => s.(end := ServerAborted)
  }

  function ServeCommand(s: Service, message: seq<string>): Service {
    match CommandOf(message)
    case NoCommand => s
    case Recognised(c) =>
      s.(history := s.history + [c], oks := s.oks + 1, end := if c.Terminate? then LoopOver else StillServing)
    case PartMissing => s.(end := ServerThrew)
    case UnknownCommand => s.(end := ServerAborted)
  }

  /** One round after what has been done so far: first the request, then the
      command. */
  ghost function Serve(s: Service, round: Round): Service
    requires s.end.StillServing?
  {
    var s := s.(rounds := s.rounds + 1);
    match round
    case PollInterrupted => s.(end := LoopOver)
    case PollFailed => s.(end := ServerThrew)
    case Ready(request, command) =>
      var answered := ServeRequest(s, request);
      if !answered.end.StillServing? || command.None? then answered else ServeCommand(answered, command.value)
  }

  ghost function AllServed(rounds: seq<Round>): Service {
    if rounds == [] then Service([], 0, [], 0, StillServing)
    else
      var s := AllServed(rounds[..|rounds| - 1]);
      if s.end.StillServing? then Serve(s, rounds[|rounds| - 1]) else s
  }

  /** The commands among the rounds, in order. */
  function CommandsIn(rounds: seq<Round>): seq<Command> {
    if rounds == [] then []
    else
      var last := rounds[|rounds| - 1];
      CommandsIn(rounds[..|rounds| - 1]) +
      if last.Ready? && last.command.Some? && CommandOf(last.command.value).Recognised?
      then [CommandOf(last.command.value).command] else []
  }

  /** The answers to the requests among the rounds, each by the commands of the
      rounds before it. */
  ghost function AnswersTo(rounds: seq<Round>): seq<Outcome> {
    if rounds == [] then []
    else
      var before, last := rounds[..|rounds| - 1], rounds[|rounds| - 1];
      AnswersTo(before) +
      if last.Ready? && last.request.Some? then [Answer(CommandsIn(before), last.request.value)] else []
  }

  /** The service is what the rounds it took ask for: the history is the
      commands among them, one ok for each, and the replies are the answers to
      the requests among them, each by the commands before it. */
  ghost predicate Faithful(s: Service, rounds: seq<Round>) {
    && s.history == CommandsIn(rounds)
    && s.oks == |s.history|
    && |s.replies| == |AnswersTo(rounds)|
    && (forall i | 0 <= i < |s.replies| :: AnswersTo(rounds)[i] == Replied(s.replies[i]))
  }

  lemma ServeKeepsFaith(s: Service, before: seq<Round>, last: Round)
    requires s.end.StillServing? && Faithful(s, before)
    ensures var next := Serve(s, last);
            && next.oks == |next.history|
            && (next.end.StillServing? || next.end.LoopOver? || last.PollFailed? ==> Faithful(next, before + [last]))
  {
    var rounds := before + [last];
    assert rounds[..|rounds| - 1] == before && rounds[|rounds| - 1] == last;
    if last.Ready? && last.command.Some? && CommandOf(last.command.value).Recognised? {
      assert CommandsIn(rounds) == CommandsIn(before) + [CommandOf(last.command.value).command];
    } else {
      assert CommandsIn(rounds) == CommandsIn(before);
    }
    if last.Ready? && last.request.Some? {
      assert AnswersTo(rounds) == AnswersTo(before) + [Answer(s.history, last.request.value)];
    } else {
      assert AnswersTo(rounds) == AnswersTo(before);
    }
  }

  lemma ServeGoesOn(s: Service, round: Round)
    requires s.end.StillServing? && Terminate !in s.history
    ensures var next := Serve(s, round);
            && next.rounds == s.rounds + 1
            && (next.end.StillServing? ==> Terminate !in next.history)
            && (next.end.LoopOver? ==> round.PollInterrupted? || Terminate in next.history)
            && (round.PollFailed? ==> next.end.ServerThrew?)
  {
  }

  /** Whatever requests and commands come in, and in whatever order: each
      recognised command gets exactly one ok; each request gets exactly one
      reply, the one that the commands before it decide; the loop goes on until a
      poll is interrupted or fails or TERMINATE has been taken in, unless it
      throws or aborts before; and a failed poll loses nothing done so far. */
  lemma {:induction false} ServiceIs(rounds: seq<Round>)
    ensures var s := AllServed(rounds);
            && s.rounds <= |rounds|
            && s.oks == |s.history|
            && (s.end.StillServing? ==> s.rounds == |rounds| && Terminate !in s.history)
            && (s.end.LoopOver? ==>
                  s.rounds > 0 && (rounds[s.rounds - 1].PollInterrupted? || Terminate in s.history))
            && (s.rounds > 0 && rounds[s.rounds - 1].PollFailed? ==> s.end.ServerThrew?)
            && (s.end.StillServing? || s.end.LoopOver? || (s.rounds > 0 && rounds[s.rounds - 1].PollFailed?) ==>
                  Faithful(s, rounds[..s.rounds]))
  {
    if rounds != [] {
      var before, last := rounds[..|rounds| - 1], rounds[|rounds| - 1];
      ServiceIs(before);
      var s := AllServed(before);
      if s.end.StillServing? {
        assert before[..|before|] == before && before + [last] == rounds == rounds[..|rounds|];
        ServeKeepsFaith(s, before, last);
        ServeGoesOn(s, last);
      } else {
        assert rounds[..s.rounds] == before[..s.rounds];
      }
    }
  }

  // ---- The object ----

  class Authenticator {
    var whitelist: set<string>
    var blacklist: set<string>
    var passwords: map<string, string>
    var clientKeys: set<string>
    var domain: string
    var curveAllowAny: bool
    var terminated: bool
    var verbose: bool

    /** The commands taken in so far. */
    ghost var history: seq<Command>

    ghost predicate Valid()
      reads this
    {
      Reflects(Abs(), history)
    }

    ghost function Abs(): Config
      reads this
    {
      Config(whitelist, blacklist, passwords, clientKeys, domain, curveAllowAny, terminated, verbose)
    }

    constructor ()
      ensures Valid() && history == [] && Abs() == INITIAL
    {
      whitelist, blacklist, passwords, clientKeys := {}, {}, map[], {};
      domain, curveAllowAny, terminated, verbose := "", false, false, false;
      history := [];
      new;
      ConfigOfHistory([]);
    }

    /** Does what a command says. */
    method Take(command: Command)
      modifies this
      ensures Abs() == Applied(old(Abs()), command) && history == old(history)
    {
      match command
      case Allow(address) => whitelist := whitelist + {address};
      case Deny(address) => blacklist := blacklist + {address};
      case Domain(name) => domain := name;
      case Plain(user, password) =>
        if user !in passwords {
          passwords := passwords[user := password];
        }
      case Curve(key) =>
        if ANY_KEY == key {
          curveAllowAny := true;
        } else {
          curveAllowAny := false;
          clientKeys := clientKeys + {key};
        }
      case Gssapi =>
      case Verbose(flag) => verbose := "true" == flag;
      case Terminate => terminated := true;
    }

    /** Takes in one command; `ok` tells whether it is acknowledged. */
    method HandleCommand(message: seq<string>) returns (parsed: ParsedCommand, ok: bool)
      requires Valid()
      modifies this
      ensures Valid() && parsed == CommandOf(message) && (ok <==> parsed.Recognised?)
      ensures Abs() == if ok then Applied(old(Abs()), parsed.command) else old(Abs())
      ensures history == if ok then old(history) + [parsed.command] else old(history)
    {
      parsed, ok := CommandOf(message), false;
      if parsed.Recognised? {
        ReflectsAppended(Abs(), history, parsed.command);
        Take(parsed.command);
        history := history + [parsed.command];
        ok := true;
      }
    }

    method AuthenticatePlain(r: ZapRequest) returns (allowed: bool, user: string)
      requires Valid()
      ensures allowed <==> FirstPassword(history, r.username) == Some(r.password)
      ensures user == if allowed then r.username else ""
    {
      if r.username in passwords && passwords[r.username] == r.password {
        return true, r.username;
      }
      return false, "";
    }

    method AuthenticateCurve(r: ZapRequest) returns (allowed: bool, user: string)
      requires Valid()
      ensures allowed <==> AnyKeyLast(history) || r.clientKey in KeysOf(history)
      ensures user == if allowed then r.clientKey else ""
    {
      if curveAllowAny {
        return true, r.clientKey;
      }
      if r.clientKey in clientKeys {
        return true, r.clientKey;
      }
      return false, "";
    }

    /** Answers one request. */
    method Authenticate(incoming: Incoming) returns (out: Outcome)
      requires Valid()
      ensures out == Answer(history, incoming)
      ensures incoming.Request? ==>
                var r := incoming.request;
                out == Replied(if AddressPasses(history, r.address) && MechanismPasses(history, r)
                               then [r.version, r.sequence, "200", "OK", UserOf(r), ""]
                               else [r.version, r.sequence, "400", "No access", "", ""])
    {
      if incoming.Request? {
        ReplyIs(history, incoming.request);
      }
      match incoming
      case TooShort => return Threw;
      case WrongVersion => return Aborted;
      case NoMessage => return Replied(Reply("", "", "500", "Internal error", ""));
      case Request(r) =>
        var user := "";
        var allowed, denied := false, false;
        if whitelist != {} {
          if r.address in whitelist {
            allowed := true;
          } else {
            denied := true;
          }
        } else if blacklist != {} {
          if r.address in blacklist {
            denied := true;
          } else {
            allowed := true;
          }
        }
        if !denied {
          if "NULL" == r.mechanism && !allowed {
            allowed := true;
          } else if "PLAIN" == r.mechanism {
            allowed, user := AuthenticatePlain(r);
          } else if "CURVE" == r.mechanism {
            allowed, user := AuthenticateCurve(r);
          } else if "GSSAPI" == r.mechanism {
            allowed := true;
          }
        }
        if allowed {
          return Replied(Reply(r.version, r.sequence, "200", "OK", user));
        }
        return Replied(Reply(r.version, r.sequence, "400", "No access", ""));
    }

    /** One turn of the server: first the request, then the command. */
    method Turn(request: Option<Incoming>, command: Option<seq<string>>, ghost s: Service)
      returns (replies: seq<seq<string>>, oks: nat, over: bool)
      requires Valid() && s.history == history && s.end.StillServing? && !terminated
      modifies this
      ensures Valid()
      ensures var next := Serve(s, Ready(request, command));
              && next.replies == s.replies + replies && next.oks == s.oks + oks && next.history == history
              && (next.end.StillServing? <==> !over && !terminated)
    {
      replies, oks, over := [], 0, false;
      if request.Some? {
        var out := Authenticate(request.value);
        if out.Replied? {
          replies := [out.reply];
        } else {
          over := true;
        }
      }
      if !over && command.Some? {
        var parsed, ok := HandleCommand(command.value);
        if ok {
          oks := 1;
        }
        over := parsed.PartMissing? || parsed.UnknownCommand?;
      }
    }

    /** The server: answers requests and takes in commands until it is told to
        terminate, a poll is interrupted, or it fails. */
    method Run(rounds: seq<Round>) returns (ghost s: Service, replies: seq<seq<string>>, oks: nat)
      requires Valid() && history == [] && !terminated
      modifies this
      ensures Valid() && s == AllServed(rounds) && replies == s.replies && oks == s.oks && history == s.history
    {
      replies, oks := [], 0;
      s := Service([], 0, [], 0, StillServing);
      var over := false;
      var n: nat := 0;
      while n < |rounds| && !over && !terminated
        invariant Valid() && n <= |rounds|
        invariant s == AllServed(rounds[..n]) && replies == s.replies && oks == s.oks && history == s.history
        invariant s.end.StillServing? <==> !over && !terminated
      {
        assert rounds[..n + 1][..n] == rounds[..n];
        ghost var before := s;
        s := Serve(s, rounds[n]);
        match rounds[n] {
          case PollInterrupted => over := true;
          case PollFailed => over := true;
          case Ready(request, command) =>
            var sent, acknowledged;
            sent, acknowledged, over := Turn(request, command, before);
            replies, oks := replies + sent, oks + acknowledged;
        }
        n := n + 1;
      }
      StaysOver(rounds, n);
    }

    static lemma {:induction false} StaysOver(rounds: seq<Round>, n: nat)
      requires n <= |rounds|
      ensures n == |rounds| || !AllServed(rounds[..n]).end.StillServing? ==> AllServed(rounds) == AllServed(rounds[..n])
      decreases |rounds|
    {
      if n < |rounds| {
        StaysOver(rounds[..|rounds| - 1], n);
        assert rounds[..|rounds| - 1][..n] == rounds[..n];
      } else {
        assert rounds[..n] == rounds;
      }
    }
  }
}
