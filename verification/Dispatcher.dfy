/**
  * The dispatcher of tools/call (src/mcp_proxy/proxy_mcp.py): policy, popular shortcuts, the admin
  * gate and the recursion through callTool. Other requests run at every await, so there the
  * configuration and the session's identity may change under the request's feet.
  */
module Dispatcher {
  import opened Wrappers
  import opened Text
  import opened JsonValues
  import opened ToolNames
  import opened ToolNameLaws
  import opened ClientPolicy
  import opened PaginationArgs

  const ADMIN_SERVER_ID := "mcp-tools-admin"

  const ADMIN_TOOL_NAMES := {
    "listServers", "setServerEnabled", "registerStdioServer", "registerManualStdioServer",
    "upgradeStdioServer", "removeServer", "getLogs"}

  const META_TOOL_NAMES := {"searchToolsForDomain", "searchTool", "htmlToPlainText"}

  datatype ApiClient = ApiClient(id: string, disabledTools: seq<string>, canAdmin: bool)

  /** Who the current request speaks for. */
  datatype Identity = Identity(client: Option<ApiClient>, adminSession: bool)

  datatype Settings = Settings(safeToolNames: bool, authEnabled: bool, enforceAdminTools: bool)

  /** What others decide: the servers configured, enabled or not, and who the session speaks for. */
  datatype Moment = Moment(servers: Servers, identity: Identity)

  /** The whole history, past and future: requests only find out how far it has come. */
  type World = nat -> Moment

  /** What the request made happen: when the tool was invoked, and when the policy was read that let it through. */
  datatype Event =
    | Upstream(tool: Tool, arguments: Option<Args>, policyAt: nat, at: nat)
    | AdminTool(name: string, fields: Args, policyAt: nat, at: nat)

  datatype Outcome = Replied | Raised(error: Error)

  datatype Error =
    | ToolDisabled(name: string)
    | AdminDenied
    | BadArguments
    | InvalidToolName
    | UnknownServer
    | UnknownTool
    | UpstreamFailed
    | CacheMiss

  function DisabledFor(who: Identity): set<string> {
    ClientDisabledTools(if who.client.Some? then Some(who.client.value.disabledTools) else None)
  }

  /** `_assert_mcp_admin_allowed` lets the call through. */
  predicate GateOpen(name: string, who: Identity, settings: Settings) {
    || name !in ADMIN_TOOL_NAMES
    || who.adminSession
    || (who.client.Some? && who.client.value.canAdmin)
    || (who.client.None? && !settings.authEnabled)
    || !settings.enforceAdminTools
  }

  /** Some stored entry of the client names this tool. */
  ghost predicate Forbidden(who: Identity, name: string) {
    who.client.Some? && Blocks(who.client.value.disabledTools, name)
  }

  ghost predicate ForbidsPair(who: Identity, t: Tool) {
    who.client.Some? && exists x :: x in who.client.value.disabledTools && Decode(x) == Some(t)
  }

  lemma DisabledIsForbidden(who: Identity, name: string)
    ensures IsToolDisabled(name, DisabledFor(who)) <==> Forbidden(who, name)
  {
    hide Key, SameTool;
    if who.client.Some? {
      PolicyExact(who.client.value.disabledTools, name);
    }
  }

  lemma AllowedPair(who: Identity, name: string)
    requires !IsToolDisabled(name, DisabledFor(who)) && Decode(name).Some?
    ensures !ForbidsPair(who, Decode(name).value)
  {
    hide Decode;
    DisabledIsForbidden(who, name);
  }

  /** `format_composite_tool_name` */
  function FormatName(t: Tool, settings: Settings): Option<string> {
    if settings.safeToolNames then Encode(t) else Some(SlashForm(t))
  }

  /** The servers a store can hold: registrable ids, none of them the built-in one. */
  predicate Registrable(servers: map<string, bool>) {
    forall id :: id in servers ==> IsSlug(id) && id != ADMIN_SERVER_ID
  }

  type Servers = servers: map<string, bool> | Registrable(servers) witness map[]

  predicate Enabled(servers: Servers, id: string) {
    id in servers && servers[id]
  }

  /**
    * The world allowed this event: configuration and gate when the tool was invoked, policy when it was read. The
    * event has no say in what these were.
    */
  ghost predicate Legitimate(e: Event, settings: Settings, world: World) {
    match e
    case Upstream(t, arguments, policyAt, at) =>
      && Enabled(world(at).servers, t.server)
      && t.server != ADMIN_SERVER_ID
      && !ForbidsPair(world(policyAt).identity, t)
      && (arguments.Some? ==> forall k :: k in arguments.value ==> !IsNamespaced(k, PAGINATION_ARG_KEYS))
    case AdminTool(name, _, policyAt, at) =>
      && name in ADMIN_TOOL_NAMES
      && GateOpen(name, world(at).identity, settings)
      && !Forbidden(world(policyAt).identity, name)
  }

  /** Reading the policy and invoking the tool fell into this time, in this order. */
  predicate During(e: Event, from: nat, to: nat) {
    from <= e.policyAt <= e.at <= to
  }

  /** Names a popular shortcut can stand for are one step above plain names. */
  function Rank(name: string): nat {
    if Decode(name).Some? then 1 else 0
  }

  lemma AdminNameIsPlain(name: string)
    requires name in ADMIN_TOOL_NAMES
    ensures Decode(name).None? && name != "callTool" && name !in META_TOOL_NAMES
  {
    hide Decode, IsLetters;
    AdminNameIsLetters(name);
    PlainNameIsNotComposite(name);
  }

  predicate IsLetters(s: string) {
    forall i :: 0 <= i < |s| ==> 'a' <= s[i] <= 'z' || 'A' <= s[i] <= 'Z'
  }

  lemma AdminNameIsLetters(name: string)
    requires name in ADMIN_TOOL_NAMES
    ensures name != "" && IsLetters(name)
  {
    if name in {"listServers", "setServerEnabled", "getLogs", "removeServer"} {
    } else {
      assert name in {"registerStdioServer", "registerManualStdioServer", "upgradeStdioServer"};
    }
  }

  /** No popular tool is listed under the name of an admin tool, or under callTool. */
  lemma PlainNameIsUnlisted(key: string, name: string, settings: Settings)
    ensures (name in ADMIN_TOOL_NAMES || name == "callTool") && Matches(key, name, settings) ==> Decode(key).None?
  {
    hide Decode, IsLetters;
    if name in ADMIN_TOOL_NAMES || name == "callTool" {
      PlainIsLetters(name);
      PlainNameIsNotComposite(name);
      if Decode(key).Some? {
        ListingsAreMarked(Decode(key).value, settings);
        LettersAreUnmarked(name);
      }
    }
  }

  lemma PlainIsLetters(name: string)
    requires name in ADMIN_TOOL_NAMES || name == "callTool"
    ensures name != "" && IsLetters(name)
  {
    hide IsLetters;
    if name in ADMIN_TOOL_NAMES {
      AdminNameIsLetters(name);
    } else {
      CallToolIsLetters();
    }
  }

  lemma CallToolIsLetters()
    ensures IsLetters("callTool")
  {
  }

  lemma LettersAreUnmarked(s: string)
    requires IsLetters(s)
    ensures '/' !in s && '_' !in s
  {
  }

  lemma ListingsAreMarked(t: Tool, settings: Settings)
    ensures FormatName(t, settings).Some? ==>
      '/' in FormatName(t, settings).value || '_' in FormatName(t, settings).value
  {
    hide Decode, Replace;
    assert '_' in "__" && '_' in PROXY_TOOL_SEP && '/' in "/";
    assert '_' in DescriptiveForm(t) && '_' in HexForm(t) && '/' in SlashForm(t);
  }

  lemma CallToolIsPlain()
    ensures Decode("callTool").None?
  {
    hide Decode;
    PlainNameIsNotComposite("callTool");
  }

  lemma PlainNameIsNotComposite(name: string)
    requires name != "" && IsLetters(name)
    ensures Decode(name).None?
  {
    hide HexUtf8SuffixOk, FirstHexSplit, Find, Strip;
    StripFixesStripped(name);
    FindChar(name, '/');
    forall k: nat ensures !OccursAt(name, PROXY_TOOL_SEP, k) && !OccursAt(name, "__", k) {
      PairAt(name, '_', '_', k);
      MarkerAt(name, k);
    }
  }

  // ---- what a request asks for ----

  /** The arguments that cannot be the proxy's own paging fields under any spelling. */
  function Core(args: Args): Args {
    map k | k in args && k !in PAGINATION_ARG_KEYS && !IsNamespaced(k, PAGINATION_ARG_KEYS) :: args[k]
  }

  /** A tool to be called, and what it is to be given, paging fields aside. */
  datatype Target = ToUpstream(tool: Tool, given: Args) | ToAdmin(name: string, given: Args)

  function TargetOf(e: Event): Target {
    match e
    case Upstream(tool, arguments, _, _) => ToUpstream(tool, Core(arguments.GetOr(map[])))
    case AdminTool(name, fields, _, _) => ToAdmin(name, Core(fields))
  }

  lemma CoreOfRest(args: Args, declared: set<string>)
    ensures Core(Rest(args, declared)) == Core(args)
  {
    hide IsNamespaced;
  }

  function Nested(args: Args): Args {
    NestedArgs(args).GetOr(map[])
  }

  function ToolNameOf(args: Args): string {
    if "toolName" in args && args["toolName"].Str? then args["toolName"].s else ""
  }

  lemma NestedIsShallower(args: Args)
    requires ToolNameOf(args) != ""
    ensures Depth(Obj(Nested(args))) < Depth(Obj(args))
  {
    FieldIsShallower(args, "toolName");
    if NestedArgs(args).Some? {
      FieldIsShallower(args, "arguments");
    } else {
      var none: Args := map[];
      assert none.Keys == {};
    }
  }

  /** A popular shortcut spells the tool it decodes to, or that its listed spelling decodes to. */
  ghost predicate Shortcut(name: string, args: Args, settings: Settings, target: Target) {
    exists wire :: IsListedAs(name, wire, settings) && SpelledBy(wire, args, target)
  }

  predicate IsListedAs(name: string, wire: string, settings: Settings) {
    wire == name || (Decode(name).Some? && FormatName(Decode(name).value, settings) == Some(wire))
  }

  predicate SpelledBy(wire: string, args: Args, target: Target) {
    Decode(wire).Some? &&
    var t := Decode(wire).value;
    target == if t.server == ADMIN_SERVER_ID then ToAdmin(t.name, Core(args)) else ToUpstream(t, Core(args))
  }

  /** The call asks for this: plainly, as a popular shortcut, or through callTool, level by level. */
  ghost predicate Names(name: string, args: Args, settings: Settings, target: Target)
    decreases Depth(Obj(args))
  {
    || (name in ADMIN_TOOL_NAMES && target == ToAdmin(name, Core(args)))
    || Shortcut(name, args, settings, target)
    || (name == "callTool" && ToolNameOf(args) != "" && Decode(ToolNameOf(args)).Some? && (
        var t := Decode(ToolNameOf(args)).value;
        if t.server != ADMIN_SERVER_ID then target == ToUpstream(t, Core(Nested(args)))
        else
          NestedIsShallower(args);
          Names(t.name, Nested(args), settings, target)))
  }

  lemma PeelingKeepsCallFields(args: Args, declared: set<string>)
    ensures ToolNameOf(Rest(args, declared)) == ToolNameOf(args)
    ensures Nested(Rest(args, declared)) == Nested(args)
  {
    assert !IsProxyOwned("toolName", declared) && !IsProxyOwned("arguments", declared);
  }

  lemma NamesIgnoresPeeling(name: string, args: Args, declared: set<string>, settings: Settings, target: Target)
    ensures Names(name, Rest(args, declared), settings, target) <==> Names(name, args, settings, target)
  {
    hide Decode, FormatName, Rest, ToolNameOf, Nested, Core;
    PeelingKeepsCallFields(args, declared);
    CoreOfRest(args, declared);
  }

  lemma DecodeStrips(name: string)
    ensures Decode(Strip(name)) == Decode(name)
  {
    StripIdempotent(name);
  }

  /** A registered or built-in server's listed spelling decodes, if at all, to that server. */
  lemma ListedServer(t: Tool, settings: Settings)
    requires IsSlug(t.server)
    ensures FormatName(t, settings).Some?
    ensures var listed := Decode(FormatName(t, settings).value); listed.Some? ==> listed.value.server == t.server
    ensures t.name in ADMIN_TOOL_NAMES ==> Decode(FormatName(t, settings).value) == Some(t)
  {
    hide Decode, Encode, IsSlug;
    RoundTrip(t);
    if !settings.safeToolNames {
      SlashServer(t);
    }
  }

  lemma SlashServer(t: Tool)
    requires IsSlug(t.server)
    ensures Decode(SlashForm(t)).Some? ==> Decode(SlashForm(t)).value.server == t.server
    ensures t.name in ADMIN_TOOL_NAMES ==> Decode(SlashForm(t)) == Some(t)
  {
    hide FirstHexSplit, HexUtf8SuffixOk, HexPayload, Find, Strip, DecodeDescriptive;
    var w, n := SlashForm(t), |t.server|;
    SlugIsWireServer(t.server);
    assert Stripped(t.server) by { SlugStripped(t.server); }
    StripFixesStripped(t.server);
    LeftStripped(w);
    var c := Strip(w);
    assert w[n] == '/' && !IsSpace('/');
    assert |c| > n && c[..n + 1] == w[..n + 1];
    FirstSlash(t.server, c[n + 1..]);
    assert c == t.server + "/" + c[n + 1..];
    assert c[..n] == t.server;
    if t.name in ADMIN_TOOL_NAMES {
      AdminNameStripped(t.name);
      SlashFormDecodes(t);
    }
  }

  lemma SlugStripped(s: string)
    requires IsSlug(s)
    ensures Stripped(s)
  {
    assert s[0] in s && s[|s| - 1] in s;
  }

  lemma AdminNameStripped(name: string)
    requires name in ADMIN_TOOL_NAMES
    ensures name != "" && Stripped(name)
  {
  }

  /** Stripping a slash spelling whose server is stripped only touches what follows the slash. */
  lemma LeftStripped(w: string)
    requires w != "" && !IsSpace(w[0])
    ensures Strip(w) <= w && forall i :: |Strip(w)| <= i < |w| ==> IsSpace(w[i])
  {
    forall i | |Strip(w)| <= i < |w| ensures IsSpace(w[i]) {
      assert w[i] in w[|Strip(w)|..];
    }
  }

  // ---- the dispatcher ----

  datatype Row = Found(toolName: string, declared: set<string>) | Missing | Failing

  /** The row of a tool that was found: its listed spelling, and whose tool it is. */
  predicate RowOf(t: Tool, row: Row, settings: Settings) {
    row.Found? ==>
      && FormatName(t, settings) == Some(row.toolName) && IsSlug(t.server)
      && (t.server == ADMIN_SERVER_ID ==> t.name in ADMIN_TOOL_NAMES)
  }

  /** A verified shortcut: the listed spelling of the name, and only for existing admin tools. */
  predicate IsShortcut(name: string, wire: string, settings: Settings) {
    && IsListedAs(name, wire, settings)
    && (Decode(wire).Some? && Decode(wire).value.server == ADMIN_SERVER_ID
        ==> Decode(wire).value.name in ADMIN_TOOL_NAMES && Decode(name).Some?)
  }

  lemma ShortcutFromRow(key: string, name: string, row: Row, settings: Settings)
    requires Decode(key).Some? && row.Found? && RowOf(Decode(key).value, row, settings)
    requires key == name || FormatName(Decode(key).value, settings) == Some(name)
    ensures IsShortcut(name, row.toolName, settings)
  {
    hide Decode, Encode, IsSlug;
    ListedServer(Decode(key).value, settings);
  }

  lemma AdminServerIsSlug()
    ensures IsSlug(ADMIN_SERVER_ID)
  {
  }

  /** At most one event has been added. */
  ghost predicate OneMore(before: seq<Event>, after: seq<Event>) {
    after == before || (|after| == |before| + 1 && after[..|before|] == before)
  }

  /** An event is allowed, and is what the call names. */
  ghost predicate Proper(e: Event, name: string, args: Args, settings: Settings, world: World) {
    Legitimate(e, settings, world) && Names(name, args, settings, TargetOf(e))
  }

  lemma PlainTarget(name: string, args: Args, settings: Settings, target: Target)
    requires name in ADMIN_TOOL_NAMES
    ensures Names(name, args, settings, target) <==> target == ToAdmin(name, Core(args))
  {
    hide Decode, FormatName;
    AdminNameIsPlain(name);
  }

  /** The callTool branch was reached as itself, or from this shortcut. */
  predicate CameFrom(
    args: Args, known: set<string>, name: string, from: Args, shortcut: Option<string>, settings: Settings)
  {
    if shortcut.None? then name == "callTool" && args == from
    else args == WrapHotTool(shortcut.value, from, known) && IsShortcut(name, shortcut.value, settings)
  }

  lemma WrappedFields(wire: string, from: Args, known: set<string>)
    ensures ToolNameOf(WrapHotTool(wire, from, known)) == wire
    ensures Nested(WrapHotTool(wire, from, known)) == Rest(from, known)
  {
    hide Rest;
    HotFields(wire, from, known);
    forall key | key in {"toolName", "arguments"} ensures key !in PeeledAll(from, known) {
      assert key !in PAGINATION_ARG_KEYS;
    }
  }

  lemma CleanIsRest(args: Args, declared: set<string>)
    ensures CleanArguments(args, declared).GetOr(map[]) == Rest(Nested(args), declared)
  {
    hide IsProxyOwned;
  }

  lemma RestNoDeeper(args: Args, declared: set<string>)
    ensures Depth(Obj(Rest(args, declared))) <= Depth(Obj(args))
  {
    hide IsProxyOwned;
    FewerFieldsNoDeeper(Rest(args, declared), args);
  }

  /** The recursion ends: the inner call nests less deeply, or as deeply with a plainer name. */
  lemma InnerIsSmaller(
    args: Args, t: Tool, declared: set<string>,
    name: string, from: Args, shortcut: Option<string>, known: set<string>, settings: Settings)
    requires CameFrom(args, known, name, from, shortcut, settings)
    requires ToolNameOf(args) != "" && Decode(ToolNameOf(args)) == Some(t) && t.server == ADMIN_SERVER_ID
    ensures var inner := CleanArguments(args, declared).GetOr(map[]);
            || Depth(Obj(inner)) < Depth(Obj(from))
            || (Depth(Obj(inner)) == Depth(Obj(from)) && Rank(t.name) < Rank(name))
  {
    hide Decode, Depth, WrapHotTool, Rest, Nested, ToolNameOf, CleanArguments, IsListedAs;
    CleanIsRest(args, declared);
    RestNoDeeper(Nested(args), declared);
    if shortcut.None? {
      NestedIsShallower(args);
    } else {
      WrappedFields(shortcut.value, from, known);
      RestNoDeeper(from, known);
      AdminNameIsPlain(t.name);
    }
  }

  /** Whatever the branch makes happen is what the call it came from names. */
  lemma BranchTarget(
    args: Args, t: Tool, declared: set<string>,
    name: string, from: Args, shortcut: Option<string>, known: set<string>, settings: Settings, target: Target)
    requires CameFrom(args, known, name, from, shortcut, settings)
    requires ToolNameOf(args) != "" && Decode(ToolNameOf(args)) == Some(t)
    requires if t.server != ADMIN_SERVER_ID then
               target == ToUpstream(t, Core(CleanArguments(args, declared).GetOr(map[])))
             else Names(t.name, CleanArguments(args, declared).GetOr(map[]), settings, target)
    ensures Names(name, from, settings, target)
  {
    hide Decode, Depth, WrapHotTool, Rest, Nested, ToolNameOf, CleanArguments, IsListedAs, Core;
    CleanIsRest(args, declared);
    CoreOfRest(Nested(args), declared);
    NamesIgnoresPeeling(t.name, Nested(args), declared, settings, target);
    if shortcut.Some? {
      WrappedFields(shortcut.value, from, known);
      CoreOfRest(from, known);
      if t.server == ADMIN_SERVER_ID {
        PlainTarget(t.name, Nested(args), settings, target);
      }
      assert SpelledBy(shortcut.value, from, target);
      assert Shortcut(name, from, settings, target);
    }
  }

  lemma StripBlank(s: string)
    ensures s == "" ==> Strip(s) == ""
  {
  }

  /** What a rewritten shortcut names as a callTool is what the shortcut names. */
  lemma RewrittenTarget(
    name: string, from: Args, wire: string, declared: set<string>, settings: Settings, target: Target)
    requires IsShortcut(name, wire, settings)
    requires Names("callTool", WrapHotTool(wire, from, declared), settings, target)
    ensures Names(name, from, settings, target)
  {
    hide Decode, Encode, Depth, WrapHotTool, Rest, Nested, ToolNameOf, IsListedAs, Core;
    WrappedFields(wire, from, declared);
    CoreOfRest(from, declared);
    CallToolIsPlain();
    CallToolHasNoListing(WrapHotTool(wire, from, declared), settings, target);
    var t := Decode(wire).value;
    if t.server == ADMIN_SERVER_ID {
      PlainTarget(t.name, Rest(from, declared), settings, target);
    }
    assert SpelledBy(wire, from, target);
  }

  lemma CallToolHasNoListing(args: Args, settings: Settings, target: Target)
    ensures !Shortcut("callTool", args, settings, target)
  {
    hide Decode;
    CallToolIsPlain();
  }

  lemma UpstreamIsLegitimate(
    args: Args, declared: set<string>, composite: string, settings: Settings, world: World, policyAt: nat, at: nat)
    requires Decode(composite).Some? && !IsToolDisabled(composite, DisabledFor(world(policyAt).identity))
    requires Enabled(world(at).servers, Decode(composite).value.server)
    ensures Legitimate(Upstream(Decode(composite).value, CleanArguments(args, declared), policyAt, at), settings, world)
  {
    hide Decode, Key, IsSlug, IsNamespaced;
    AllowedPair(world(policyAt).identity, composite);
  }

  /** A stored key stands for this name: it is the name, or is listed under it. */
  predicate Matches(key: string, name: string, settings: Settings) {
    key == name || (Decode(key).Some? && FormatName(Decode(key).value, settings) == Some(name))
  }

  /** What the callTool branch makes of its arguments before it calls anything. */
  datatype Reading = Refused(error: Error) | FromCache | Ready

  function ReadingOf(args: Args, declared: set<string>, who: Identity, page: int, toInt: Json -> Option<int>): Reading {
    var composite := Strip(ToolNameOf(args));
    if composite == "" then Refused(BadArguments)
    else if "arguments" in args && !args["arguments"].Null? && !args["arguments"].Obj? then Refused(BadArguments)
    else
      var request := ParseRequest(MergedAll(args, declared), page, toInt);
      if request.Err? then Refused(BadArguments)
      else if IsToolDisabled(composite, DisabledFor(who)) then Refused(ToolDisabled(composite))
      else if request.value.cacheId.Some? then FromCache
      else Ready
  }

  /**
    * When a callTool goes on to its tool, spelled out: it names one, its arguments are an object if there are any, its
    * paging fields are well-formed and ask for no stored response, and the client may call the tool.
    */
  lemma ReadingExactly(args: Args, declared: set<string>, who: Identity, page: int, toInt: Json -> Option<int>)
    ensures var r, fields := ReadingOf(args, declared, who, page, toInt), MergedAll(args, declared);
            var named := "toolName" in args && args["toolName"].Str? && Strip(args["toolName"].s) != "";
            var shaped := "arguments" in args ==> args["arguments"].Obj? || args["arguments"].Null?;
            if !named || !shaped || ParseRequest(fields, page, toInt).Err? then r == Refused(BadArguments)
            else if Forbidden(who, Strip(args["toolName"].s)) then r == Refused(ToolDisabled(Strip(args["toolName"].s)))
            else
              && !r.Refused?
              && (r.FromCache? <==> "responseCacheId" in fields && !fields["responseCacheId"].Null?)
  {
    hide Decode, DisabledFor, IsToolDisabled, MergedAll, Forbidden, ParseRequest, Strip;
    StripBlank(ToolNameOf(args));
    DisabledIsForbidden(who, Strip(ToolNameOf(args)));
    ParseExactly(MergedAll(args, declared), page, toInt);
  }

  /** What a direct callTool names, spelled out: the tool its toolName decodes to, with the arguments given. */
  lemma DirectCallNames(wire: string, given: Args, settings: Settings, target: Target)
    requires wire != ""
    ensures Names("callTool", map["toolName" := Str(wire), "arguments" := Obj(given)], settings, target) <==>
      match Decode(wire)
      case None => false
      case Some(t) =>
        if t.server != "mcp-tools-admin" then target == ToUpstream(t, Core(given))
        else if t.name in ADMIN_TOOL_NAMES then target == ToAdmin(t.name, Core(given))
        else Names(t.name, given, settings, target)
  {
    hide Decode, FormatName, Core, Shortcut;
    var call: Args := map["toolName" := Str(wire), "arguments" := Obj(given)];
    assert ToolNameOf(call) == wire && Nested(call) == given;
    CallToolHasNoListing(call, settings, target);
    CallToolIsNoAdminTool();
    if Decode(wire).Some? && Decode(wire).value.name in ADMIN_TOOL_NAMES {
      PlainTarget(Decode(wire).value.name, given, settings, target);
    }
  }

  lemma CallToolIsNoAdminTool()
    ensures "callTool" !in ADMIN_TOOL_NAMES
  {
  }

  /** What a name that spells the tool of a server names, when no other listing is in play: that tool. */
  lemma ShortcutNames(t: Tool, given: Args, settings: Settings, target: Target)
    requires settings.safeToolNames && IsSlug(t.server)
    ensures Encode(t).Some?
    ensures Names(Encode(t).value, given, settings, target) <==>
      target == if t.server == "mcp-tools-admin" then ToAdmin(t.name, Core(given)) else ToUpstream(t, Core(given))
  {
    hide Decode, Encode, Core, IsSlug;
    RoundTrip(t);
    CallToolIsPlain();
    var wire := Encode(t).value;
    if wire in ADMIN_TOOL_NAMES {
      AdminNameIsPlain(wire);
    }
    assert IsListedAs(wire, wire, settings);
    assert SpelledBy(wire, given, target) ==> Shortcut(wire, given, settings, target);
  }

  /** The arguments that a target is given, spelled out: none of the six spellings of a paging field is among them. */
  lemma CoreExactly(given: Args, k: string)
    ensures k in Core(given) <==>
      && k in given
      && k !in {"responseCacheId", "responseOffset", "responseLimit"}
      && k != "_proxy." + "responseCacheId"
      && k != "_proxy." + "responseOffset"
      && k != "_proxy." + "responseLimit"
    ensures k in Core(given) ==> Core(given)[k] == given[k]
  {
    hide IsNamespaced;
    NamespacedExactly(k);
  }

  /** Whatever parameters the tool declares or not, could this call be refused or answered from the cache? */
  ghost predicate Unready(args: Args, who: Identity, page: int, toInt: Json -> Option<int>) {
    exists declared: set<string> :: !ReadingOf(args, declared, who, page, toInt).Ready?
  }

  ghost predicate Unserved(server: string, world: World, from: nat, to: nat) {
    exists at: nat :: from <= at <= to && !Enabled(world(at).servers, server)
  }

  ghost predicate Withheld(name: string, settings: Settings, world: World, from: nat, to: nat) {
    exists at: nat ::
      from <= at <= to && !(GateOpen(name, world(at).identity, settings) && !Forbidden(world(at).identity, name))
  }

  /** A callTool that names a tool may end without invoking it. */
  ghost predicate Excused(
    args: Args, who: Identity, page: int, toInt: Json -> Option<int>, settings: Settings, world: World,
    from: nat, to: nat)
  {
    var t := Decode(ToolNameOf(args));
    || t.None?
    || Unready(args, who, page, toInt)
    || (t.value.server != ADMIN_SERVER_ID && Unserved(t.value.server, world, from, to))
    || (t.value.server == ADMIN_SERVER_ID
        && (t.value.name in ADMIN_TOOL_NAMES ==> Withheld(t.value.name, settings, world, from, to)))
  }

  lemma UnreadyExcuses(
    args: Args, declared: set<string>, who: Identity, page: int, toInt: Json -> Option<int>, settings: Settings,
    world: World, from: nat, to: nat)
    requires !ReadingOf(args, declared, who, page, toInt).Ready?
    ensures Excused(args, who, page, toInt, settings, world, from, to)
  {
    hide ReadingOf, Decode, ToolNameOf, Unserved, Withheld;
  }

  /** At some instant the server was not there, or the admin tool not allowed. */
  lemma MomentExcuses(
    args: Args, who: Identity, page: int, toInt: Json -> Option<int>, settings: Settings, world: World,
    from: nat, at: nat, to: nat)
    requires from <= at <= to
    requires Decode(ToolNameOf(args)).Some? ==>
               var t := Decode(ToolNameOf(args)).value;
               if t.server != ADMIN_SERVER_ID then !Enabled(world(at).servers, t.server)
               else t.name in ADMIN_TOOL_NAMES ==>
                 !(GateOpen(t.name, world(at).identity, settings) && !Forbidden(world(at).identity, t.name))
    ensures Excused(args, who, page, toInt, settings, world, from, to)
  {
    hide Decode, ToolNameOf, Unready, Enabled, GateOpen, Forbidden;
  }

  class Proxy {
    const settings: Settings
    const page: int
    const toInt: Json -> Option<int>
    const world: World
    /** How far the world has come. */
    var now: nat
    var top: seq<string>
    var warned: set<(string, string)>
    /** What this request has made happen so far. */
    ghost var log: seq<Event>

    constructor (settings: Settings, page: int, toInt: Json -> Option<int>, world: World)
      ensures now == 0 && log == [] && this.settings == settings && this.world == world
    {
      this.settings, this.page, this.toInt, this.world := settings, page, toInt, world;
      now, top, warned, log := 0, [], {}, [];
    }

    /** An await: meanwhile other requests may change the configuration, the popular tools and the session. */
    method Yield()
      modifies this`now, this`top
      ensures old(now) <= now
    {
      var later: nat, ranked: seq<string> := *, *;
      now, top := now + later, ranked;
    }

    /** `_lookup_tool_row`; whether the upstream lists the tool, and with what parameters, is open. */
    method LookupToolRow(composite: string) returns (row: Row)
      modifies this`now, this`top
      ensures old(now) <= now
      ensures row.Found? ==> Decode(composite).Some? && RowOf(Decode(composite).value, row, settings)
      ensures var t := Decode(composite);
              if t.None? then row == Missing
              else if t.value.server == ADMIN_SERVER_ID then row.Found? <==> t.value.name in ADMIN_TOOL_NAMES
              else !Enabled(world(old(now)).servers, t.value.server) ==> row == Missing
      ensures Decode(composite).None? ==> now == old(now)
    {
      hide Decode, Encode, IsSlug;
      var t := Decode(composite);
      if t.None? { return Missing; }
      var declared: set<string> := *;
      if t.value.server == ADMIN_SERVER_ID {
        if t.value.name !in ADMIN_TOOL_NAMES { return Missing; }
        AdminServerIsSlug();
        ListedServer(t.value, settings);
        return Found(FormatName(t.value, settings).value, declared);
      }
      var servers := world(now).servers;
      if t.value.server !in servers || !servers[t.value.server] { return Missing; }
      ListedServer(t.value, settings);
      Yield();
      var answered, listed: bool := *, *;
      if !answered { return Failing; }
      if !listed { return Missing; }
      return Found(FormatName(t.value, settings).value, declared);
    }

    /** `_match_hot_stats_key`: the first of the popular keys that stands for this name, if one does. */
    method MatchHotKey(name: string) returns (key: Option<string>)
      ensures key.None? ==> forall i :: 0 <= i < |top| ==> !Matches(top[i], name, settings)
      ensures key.Some? ==> exists i :: (
        && 0 <= i < |top| && key.value == top[i] && Matches(top[i], name, settings)
        && forall j :: 0 <= j < i ==> !Matches(top[j], name, settings))
      ensures name in top ==> key.Some?
      ensures forall t :: FormatName(t, settings) == Some(name) && (exists k :: k in top && Decode(k) == Some(t)) ==>
        key.Some?
      ensures key.Some? ==>
        || key.value == name
        || (Decode(key.value).Some? && FormatName(Decode(key.value).value, settings) == Some(name))
    {
      hide Decode, Encode;
      for i := 0 to |top|
        invariant forall j :: 0 <= j < i ==> !Matches(top[j], name, settings)
      {
        var t := Decode(top[i]);
        if top[i] == name || (t.Some? && FormatName(t.value, settings) == Some(name)) {
          return Some(top[i]);
        }
      }
      return None;
    }

    /** `_as_hot_call_tool_args`: a verified popular shortcut is rewritten to callTool. */
    method AsHotCallToolArgs(name: string, args: Args)
      returns (name': string, args': Args, wire: Option<string>, declared: set<string>)
      modifies this`now, this`top
      ensures old(now) <= now
      ensures wire.None? ==> name' == name && args' == args && declared == {}
      ensures wire.Some? ==> name' == "callTool" && args' == WrapHotTool(wire.value, args, declared)
      ensures wire.Some? ==> IsShortcut(name, wire.value, settings)
      ensures name in ADMIN_TOOL_NAMES || name == "callTool" ==> wire.None? && now == old(now)
    {
      hide Decode, Encode, IsSlug, FormatName;
      var key := MatchHotKey(name);
      if key.Some? { PlainNameIsUnlisted(key.value, name, settings); }
      if key.None? { return name, args, None, {}; }
      var row := LookupToolRow(key.value);
      if !row.Found? {
        if row.Missing? {
          // A shortcut that is verifiably gone makes way for the next most popular tools.
          top := *;
        }
        return name, args, None, {};
      }
      ShortcutFromRow(key.value, name, row, settings);
      return "callTool", WrapHotTool(row.toolName, args, row.declared), Some(row.toolName), row.declared;
    }

    /** `_assert_mcp_admin_allowed`; true where it raises. Warnings are given once per client and tool. */
    method AdminDenied(name: string) returns (denied: bool)
      modifies this`warned
      ensures denied <==> !GateOpen(name, world(now).identity, settings)
      ensures var who := world(now).identity;
              if name !in ADMIN_TOOL_NAMES || who.adminSession || !settings.enforceAdminTools then !denied
              else if who.client.Some? then denied <==> !who.client.value.canAdmin
              else denied <==> settings.authEnabled
    {
      var identity := world(now).identity;
      if name !in ADMIN_TOOL_NAMES { return false; }
      if identity.adminSession { return false; }
      var client := identity.client;
      if client.Some? && client.value.canAdmin { return false; }
      if client.None? && !settings.authEnabled { return false; }
      if settings.enforceAdminTools { return true; }
      var key := (if client.None? then "<unbound>" else client.value.id, name);
      if key !in warned {
        warned := warned + {key};
      }
      return false;
    }

    /** `_call_tool_impl` */
    method CallToolImpl(name: string, args: Args, declared: Option<set<string>>) returns (outcome: Outcome)
      modifies this
      ensures OneMore(old(log), log) && old(now) <= now
      ensures |log| > |old(log)| ==>
        Proper(log[|log| - 1], name, args, settings, world) && During(log[|log| - 1], old(now), now)
      // Called as it is, an admin tool runs exactly when policy and gate let it.
      ensures name in ADMIN_TOOL_NAMES ==>
        var who := world(old(now)).identity;
        && (|log| > |old(log)| <==> GateOpen(name, who, settings) && !Forbidden(who, name))
        && (|log| > |old(log)| ==> log[|log| - 1] == AdminTool(name, args, old(now), old(now)))
      ensures declared.Some? && name == "callTool" && |log| == |old(log)| ==>
        var who := world(old(now)).identity;
        Forbidden(who, name) || Excused(args, who, page, toInt, settings, world, old(now), now)
      decreases Depth(Obj(args)), Rank(name), 1
    {
      hide Decode, Encode, Key, Names, WrapHotTool, DisabledFor, IsToolDisabled, GateOpen, Forbidden, Core, IsShortcut;
      hide Excused;
      CallToolIsOpen(world(now).identity, settings);
      var policyAt, policy := now, world(now).identity;
      var name', args', known := name, args, declared.GetOr({});
      ghost var shortcut: Option<string> := None;
      if declared.None? {
        var wire: Option<string>;
        name', args', wire, known := AsHotCallToolArgs(name, args);
        if wire.Some? && IsToolDisabled(wire.value, DisabledFor(policy)) {
          return Raised(ToolDisabled(wire.value));
        }
        shortcut := wire;
      }
      DisabledIsForbidden(policy, name');
      if IsToolDisabled(name', DisabledFor(policy)) { return Raised(ToolDisabled(name')); }
      var denied := AdminDenied(name');
      if denied { return Raised(Error.AdminDenied); }
      if name' in META_TOOL_NAMES {
        Yield();
        var fine: bool := *;
        return if fine then Replied else Raised(BadArguments);
      }
      if name' == "callTool" {
        outcome := CallToolBranch(args', known, policyAt, name, args, shortcut);
        return;
      }
      if name' in ADMIN_TOOL_NAMES {
        log := log + [AdminTool(name', args', policyAt, now)];
        PlainTarget(name, args, settings, ToAdmin(name, Core(args)));
        Yield();
        var fine: bool := *;
        return if fine then Replied else Raised(BadArguments);
      }
      return Raised(UnknownTool);
    }

    /**
      * The callTool branch, with the instant at which its policy was read. The call it came from is a ghost: either
      * it is this one, or a shortcut that was rewritten to this one.
      */
    method CallToolBranch(
      args: Args, known: set<string>, policyAt: nat,
      ghost name: string, ghost from: Args, ghost shortcut: Option<string>)
      returns (outcome: Outcome)
      requires policyAt <= now
      requires CameFrom(args, known, name, from, shortcut, settings)
      modifies this
      ensures OneMore(old(log), log) && old(now) <= now
      ensures |log| > |old(log)| ==>
        Proper(log[|log| - 1], name, from, settings, world) && During(log[|log| - 1], policyAt, now)
      // A tool of a server is called under this policy; a call that goes through the built-in server reads it again.
      ensures |log| > |old(log)| ==>
        var t := Decode(ToolNameOf(args));
        && t.Some?
        && (if t.value.server != ADMIN_SERVER_ID then log[|log| - 1].policyAt == policyAt && log[|log| - 1].Upstream?
            else old(now) <= log[|log| - 1].policyAt)
        && old(now) <= log[|log| - 1].at
      ensures |log| == |old(log)| ==>
        Excused(args, world(policyAt).identity, page, toInt, settings, world, old(now), now)
      decreases Depth(Obj(from)), Rank(name), 0
    {
      hide Decode, Names, CameFrom, DisabledFor, Legitimate, Depth, IsToolDisabled, CleanArguments, ToolNameOf;
      hide ReadingOf, Core, Nested, Rank, GateOpen, Forbidden, Enabled, Strip, Excused;
      var stop, composite, declared := ReadCall(args, known, world(policyAt).identity);
      if stop.Some? {
        UnreadyExcuses(args, declared, world(policyAt).identity, page, toInt, settings, world, old(now), now);
        return stop.value;
      }
      ReadyMeans(args, declared, world(policyAt).identity, page, toInt);
      DecodeStrips(ToolNameOf(args));
      var t := Decode(composite);
      if t.None? {
        MomentExcuses(args, world(policyAt).identity, page, toInt, settings, world, old(now), now, now);
        return Raised(InvalidToolName);
      }
      if t.value.server == ADMIN_SERVER_ID {
        InnerIsSmaller(args, t.value, declared, name, from, shortcut, known, settings);
        ghost var asked := now;
        outcome := CallToolImpl(t.value.name, CleanArguments(args, declared).GetOr(map[]), None);
        if |log| > |old(log)| {
          BranchTarget(args, t.value, declared, name, from, shortcut, known, settings, TargetOf(log[|log| - 1]));
        }
        if |log| == |old(log)| {
          MomentExcuses(args, world(policyAt).identity, page, toInt, settings, world, old(now), asked, now);
        }
        if outcome.Replied? {
          top := *;
        }
        return;
      }
      var given := Core(CleanArguments(args, declared).GetOr(map[]));
      BranchTarget(args, t.value, declared, name, from, shortcut, known, settings, ToUpstream(t.value, given));
      ghost var at := now;
      outcome := InvokeUpstream(t.value, args, declared, composite, policyAt);
      if |log| == |old(log)| {
        MomentExcuses(args, world(policyAt).identity, page, toInt, settings, world, old(now), at, now);
      }
    }

    /** The beginning of the callTool branch: argument checks, policy and the paging shortcut. */
    method ReadCall(args: Args, known: set<string>, who: Identity)
      returns (stop: Option<Outcome>, composite: string, declared: set<string>)
      modifies this`now, this`top
      ensures old(now) <= now
      ensures composite == Strip(ToolNameOf(args)) && (known != {} ==> declared == known)
      ensures match ReadingOf(args, declared, who, page, toInt)
              case Refused(error) => stop == Some(Raised(error))
              case FromCache => stop == Some(Replied) || stop == Some(Raised(CacheMiss))
              case Ready => stop == None
    {
      hide Decode, DisabledFor, IsToolDisabled, ParseRequest, MergedAll, RowOf, ToolNameOf;
      composite, declared := Strip(ToolNameOf(args)), known;
      if composite == "" { return Some(Raised(BadArguments)), composite, declared; }
      if "arguments" in args && !args["arguments"].Null? && !args["arguments"].Obj? {
        return Some(Raised(BadArguments)), composite, declared;
      }
      if declared == {} {
        var row := LookupToolRow(composite);
        declared := if row.Found? then row.declared else {};
      }
      var request := ParseRequest(MergedAll(args, declared), page, toInt);
      if request.Err? { return Some(Raised(BadArguments)), composite, declared; }
      if IsToolDisabled(composite, DisabledFor(who)) {
        return Some(Raised(ToolDisabled(composite))), composite, declared;
      }
      if request.value.cacheId.Some? {
        var served: bool := *;
        return Some(if served then Replied else Raised(CacheMiss)), composite, declared;
      }
      stop := None;
    }

    /** The end of the callTool branch: the server is looked up and the tool called. */
    method InvokeUpstream(t: Tool, args: Args, declared: set<string>, composite: string, policyAt: nat)
      returns (outcome: Outcome)
      requires Decode(composite) == Some(t) && t.server != ADMIN_SERVER_ID && policyAt <= now
      requires !IsToolDisabled(composite, DisabledFor(world(policyAt).identity))
      modifies this
      ensures OneMore(old(log), log) && old(now) <= now
      ensures |log| > |old(log)| ==> Legitimate(log[|log| - 1], settings, world)
      ensures |log| > |old(log)| ==> log[|log| - 1] == Upstream(t, CleanArguments(args, declared), policyAt, old(now))
      ensures |log| > |old(log)| <==> Enabled(world(old(now)).servers, t.server)
      ensures |log| == |old(log)| ==> outcome == Raised(UnknownServer)
    {
      hide Decode, Key, DisabledFor, Legitimate, IsToolDisabled, CleanArguments;
      var servers := world(now).servers;
      if t.server !in servers || !servers[t.server] {
        top := *;
        return Raised(UnknownServer);
      }
      log := log + [Upstream(t, CleanArguments(args, declared), policyAt, now)];
      UpstreamIsLegitimate(args, declared, composite, settings, world, policyAt, now);
      Yield();
      var fine: bool := *;
      top := *;
      return if fine then Replied else Raised(UpstreamFailed);
    }

    /**
      * `call_tool`, the entry point: at most one tool is invoked, and only one that the call names and that the world
      * allowed while the call lasted.
      */
    method CallTool(name: string, arguments: Option<Args>) returns (outcome: Outcome)
      modifies this
      ensures log == old(log) || (|log| == |old(log)| + 1 && log[..|old(log)|] == old(log))
      ensures |log| > |old(log)| ==>
        && Proper(log[|log| - 1], name, arguments.GetOr(map[]), settings, world)
        && Names(name, arguments.GetOr(map[]), settings, TargetOf(log[|log| - 1]))
        && old(now) <= log[|log| - 1].policyAt <= log[|log| - 1].at <= now
      // Configuration and session decide as they were at the two instants that the event tells.
      ensures |log| > |old(log)| ==> match log[|log| - 1]
              case Upstream(t, _, policyAt, at) =>
                var servers, client := world(at).servers, world(policyAt).identity.client;
                && t.server in servers && servers[t.server]
                && (client.Some? ==> forall x :: x in client.value.disabledTools ==> Decode(x) != Some(t))
              case AdminTool(tool, _, policyAt, at) =>
                var who, client := world(at).identity, world(policyAt).identity.client;
                && tool in ADMIN_TOOL_NAMES
                && (client.Some? ==> tool !in client.value.disabledTools)
                && (settings.enforceAdminTools ==>
                      || who.adminSession
                      || (who.client.Some? && who.client.value.canAdmin)
                      || (who.client.None? && !settings.authEnabled))
      // A callTool that names a tool either invokes it, or could be refused as it was given, or found the server
      // missing or disabled, or the admin tool not allowed.
      ensures name == "callTool" && |log| == |old(log)| ==>
        var who := world(old(now)).identity;
        || (who.client.Some? && name in who.client.value.disabledTools)
        || Excused(arguments.GetOr(map[]), who, page, toInt, settings, world, old(now), now)
      // An admin tool that is called by its name runs exactly when it may.
      ensures name in ADMIN_TOOL_NAMES ==>
        var who := world(old(now)).identity;
        |log| > |old(log)| <==>
          && (who.client.Some? ==> name !in who.client.value.disabledTools)
          && (|| who.adminSession || !settings.enforceAdminTools
              || (if who.client.Some? then who.client.value.canAdmin else !settings.authEnabled))
    {
      hide Decode, Encode, Key, Names, WrapHotTool, DisabledFor, IsShortcut, Legitimate, IsToolDisabled;
      var args := arguments.GetOr(map[]);
      var name', args', wire, declared := AsHotCallToolArgs(name, args);
      if wire.Some? && IsToolDisabled(wire.value, DisabledFor(world(now).identity)) {
        return Raised(ToolDisabled(wire.value));
      }
      AdminForbidden(world(old(now)).identity, name);
      outcome := CallToolImpl(name', args', Some(declared));
      if |log| > |old(log)| {
        LegitimateMeans(log[|log| - 1], settings, world);
      }
      if wire.Some? && |log| > |old(log)| {
        RewrittenTarget(name, args, wire.value, declared, settings, TargetOf(log[|log| - 1]));
      }
    }
  }

  /** A name that decodes to nothing is forbidden only as it is. */
  lemma PlainForbidden(who: Identity, name: string)
    requires Decode(name).None?
    ensures Forbidden(who, name) <==> who.client.Some? && name in who.client.value.disabledTools
  {
    hide Decode;
  }

  lemma AdminForbidden(who: Identity, name: string)
    ensures name in ADMIN_TOOL_NAMES || name == "callTool" ==>
      (Forbidden(who, name) <==> who.client.Some? && name in who.client.value.disabledTools)
  {
    hide Decode, Forbidden;
    if name in ADMIN_TOOL_NAMES {
      AdminNameIsPlain(name);
      PlainForbidden(who, name);
    } else if name == "callTool" {
      CallToolIsPlain();
      PlainForbidden(who, name);
    }
  }

  lemma CallToolIsOpen(who: Identity, settings: Settings)
    ensures GateOpen("callTool", who, settings) && "callTool" !in META_TOOL_NAMES
  {
  }

  /** What the world allows, in its own terms. */
  lemma LegitimateMeans(e: Event, settings: Settings, world: World)
    requires Legitimate(e, settings, world)
    ensures match e
            case Upstream(t, _, policyAt, at) =>
              var servers, client := world(at).servers, world(policyAt).identity.client;
              && t.server in servers && servers[t.server]
              && (client.Some? ==> forall x :: x in client.value.disabledTools ==> Decode(x) != Some(t))
            case AdminTool(tool, _, policyAt, at) =>
              var who, client := world(at).identity, world(policyAt).identity.client;
              && tool in ADMIN_TOOL_NAMES
              && (client.Some? ==> tool !in client.value.disabledTools)
              && (settings.enforceAdminTools ==>
                    || who.adminSession
                    || (who.client.Some? && who.client.value.canAdmin)
                    || (who.client.None? && !settings.authEnabled))
  {
    hide Decode;
    if e.AdminTool? {
      AdminForbidden(world(e.policyAt).identity, e.name);
    }
  }

  lemma ReadyMeans(args: Args, declared: set<string>, who: Identity, page: int, toInt: Json -> Option<int>)
    requires ReadingOf(args, declared, who, page, toInt).Ready?
    ensures ToolNameOf(args) != "" && !IsToolDisabled(Strip(ToolNameOf(args)), DisabledFor(who))
  {
    hide Decode, DisabledFor, IsToolDisabled, ParseRequest, MergedAll, ToolNameOf;
    StripBlank(ToolNameOf(args));
  }
}
