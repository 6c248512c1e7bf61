/** Command policy: which commands an authenticated identity may send, and in which form they are sent. */
module Acl {
  import opened Common
  import opened Resp

  /** The transaction and watch commands, whose state would outlive one request on a pooled connection. */
  predicate TransactionState(name: string) {
    name in {"MULTI", "EXEC", "DISCARD", "WATCH", "UNWATCH"}
  }

  predicate HardDeny(name: string) {
    TransactionState(name) ||
    name in {"CONFIG", "SHUTDOWN", "DEBUG", "SLAVEOF", "REPLICAOF", "MIGRATE", "MODULE", "SAVE", "BGSAVE", "BGREWRITEAOF",
     "LASTSAVE", "ACL", "CLIENT", "CLUSTER", "LATENCY", "MONITOR", "PSYNC", "SYNC", "FAILOVER", "RESET", "SLOWLOG",
     "COMMAND", "MEMORY", "HELLO", "SELECT", "SWAPDB", "AUTH", "QUIT", "SUBSCRIBE", "PSUBSCRIBE", "UNSUBSCRIBE",
     "PUNSUBSCRIBE", "SSUBSCRIBE", "SUNSUBSCRIBE", "PUBLISH", "PUBSUB", "BLPOP", "BRPOP", "BLMOVE", "BRPOPLPUSH",
     "BLMPOP", "BZPOPMIN", "BZPOPMAX", "BZMPOP", "WAIT", "WAITAOF", "SCRIPT", "FUNCTION"}
  }

  predicate Scripting(name: string) {
    name in {"EVAL", "EVALSHA", "EVALSHA_RO", "EVAL_RO", "FCALL", "FCALL_RO"}
  }

  predicate DefaultBlock(name: string) {
    name in {"FLUSHALL", "FLUSHDB", "KEYS", "RANDOMKEY", "INFO", "DBSIZE"}
  }

  predicate ReadCommand(name: string) {
    ReadsKeysOrHashes(name) || ReadsListsOrSets(name) || ReadsSortedSets(name) || ReadsOthers(name)
  }

  predicate ReadsKeysOrHashes(name: string) {
    name in {"GET", "MGET", "GETRANGE", "STRLEN", "EXISTS", "TYPE", "TTL", "PTTL", "EXPIRETIME", "PEXPIRETIME", "HGET",
     "HMGET", "HGETALL", "HKEYS", "HVALS", "HLEN", "HEXISTS", "HSTRLEN", "HRANDFIELD"}
  }

  predicate ReadsListsOrSets(name: string) {
    name in {"LRANGE", "LLEN", "LINDEX", "LPOS", "SMEMBERS", "SISMEMBER", "SMISMEMBER", "SCARD", "SRANDMEMBER", "SINTER",
     "SUNION", "SDIFF", "SINTERCARD"}
  }

  predicate ReadsSortedSets(name: string) {
    name in {"ZRANGE", "ZRANGEBYSCORE", "ZRANGEBYLEX", "ZREVRANGE", "ZREVRANGEBYSCORE", "ZREVRANGEBYLEX", "ZSCORE",
     "ZMSCORE", "ZCARD", "ZCOUNT", "ZLEXCOUNT", "ZRANK", "ZREVRANK", "ZRANDMEMBER"}
  }

  predicate ReadsOthers(name: string) {
    name in {"GETBIT", "BITCOUNT", "BITPOS", "BITFIELD_RO", "XRANGE", "XREVRANGE", "XLEN", "XREAD", "XINFO", "GEOPOS",
     "GEODIST", "GEOHASH", "GEOSEARCH", "PFCOUNT", "OBJECT", "DUMP", "TOUCH", "TIME", "PING", "ECHO", "SORT_RO", "LCS",
     "SUBSTR"}
  }

  datatype Identity = Identity(
    readOnly: bool, isAdmin: bool, legacy: bool, allowedCommands: Option<set<string>>, blockedCommands: set<string>,
    allowedScripts: set<string>, keyPrefix: Option<string>, pool: string, subject: string)

  datatype AclError = InvalidCommand | Forbidden(message: string)

  /** The hex SHA-256 digest of a script and the lossy UTF-8 reading of a subcommand. */
  datatype Text = Text(digest: Bytes -> string, lossy: Bytes -> string)

  function UpperChar(c: char): char {
    if 'a' <= c <= 'z' then (c as int - 32) as char else c
  }

  function Upper(s: string): string {
    seq(|s|, i requires 0 <= i < |s| => UpperChar(s[i]))
  }

  function UpperByte(b: Byte): Byte {
    if 97 <= b <= 122 then b - 32 else b
  }

  /** Case-insensitive comparison of an argument with an ASCII keyword in capitals. */
  predicate IsKeyword(arg: Bytes, word: string) {
    |arg| == |word| && forall i :: 0 <= i < |arg| ==> UpperByte(arg[i]) == word[i] as int
  }

  predicate HasKeyword(args: seq<Bytes>, word: string) {
    exists i :: 0 <= i < |args| && IsKeyword(args[i], word)
  }

  function Denied(name: string): AclError {
    Forbidden("NOPERM this token does not have permission to run '" + name + "'")
  }

  predicate AdminAllow(name: string, args: seq<Bytes>, t: Text) {
    name == "INFO" ||
    (args != [] &&
     var sub := Upper(t.lossy(args[0]));
     (name, sub) in {("CONFIG", "GET"), ("CLIENT", "LIST"), ("CLIENT", "INFO"), ("SLOWLOG", "GET"), ("SLOWLOG", "LEN"),
                     ("COMMAND", "COUNT"), ("COMMAND", "INFO"), ("COMMAND", "DOCS"), ("LATENCY", "HISTORY"),
                     ("LATENCY", "LATEST"), ("MEMORY", "USAGE"), ("MEMORY", "STATS"), ("MEMORY", "DOCTOR"),
                     ("ACL", "WHOAMI")})
  }

  predicate ScriptApproved(id: Identity, name: string, args: seq<Bytes>, t: Text) {
    (name == "EVAL" || name == "EVAL_RO") && args != [] && t.digest(args[0]) in id.allowedScripts
  }

  function CheckScripting(id: Identity, name: string, args: seq<Bytes>, t: Text): Result<(), AclError> {
    if !Scripting(name) then Ok(())
    else if (name != "EVAL" && name != "EVAL_RO") || id.allowedScripts == {} then Err(Denied(name))
    else if args == [] then Err(Denied(name))
    else if t.digest(args[0]) !in id.allowedScripts then Err(Denied(name))
    else Ok(())
  }

  function Check(id: Identity, c: Command, t: Text): Result<(), AclError> {
    if c.name == "" then Err(InvalidCommand)
    else
      var name := Upper(c.name);
      var adminAllowed := id.isAdmin && AdminAllow(name, c.args, t);
      if HardDeny(name) && !adminAllowed then Err(Denied(name))
      else if CheckScripting(id, name, c.args, t).Err? then CheckScripting(id, name, c.args, t)
      else if (name == "XREAD" || name == "XREADGROUP") && HasKeyword(c.args, "BLOCK") then
        Err(Forbidden("NOPERM blocking XREAD is not allowed"))
      else if id.keyPrefix.Some? && (name == "SORT" || name == "SORT_RO") && (HasKeyword(c.args, "BY") || HasKeyword(c.args, "GET")) then
        Err(Denied(name))
      else if name in id.blockedCommands then Err(Denied(name))
      else
        var explicitlyAllowed := id.allowedCommands.Some? && name in id.allowedCommands.value;
        if !id.legacy && DefaultBlock(name) && !explicitlyAllowed && !adminAllowed then Err(Denied(name))
        else if id.allowedCommands.Some? && name !in id.allowedCommands.value then Err(Denied(name))
        else if id.readOnly && !ReadCommand(name) then Err(Denied(name))
        else Ok(())
  }

  lemma InvalidIffUnnamed(id: Identity, c: Command, t: Text)
    ensures Check(id, c, t) == Err(InvalidCommand) <==> c.name == ""
  {
    hide HardDeny, ReadCommand, AdminAllow, Upper, HasKeyword, Scripting;
  }

  /** The policy as independent rules, whatever order they are checked in. */
  predicate Policy(id: Identity, name: string, args: seq<Bytes>, t: Text) {
    var admin := id.isAdmin && AdminAllow(name, args, t);
    && (HardDeny(name) ==> admin)
    && (Scripting(name) ==> ScriptApproved(id, name, args, t))
    && !(name in {"XREAD", "XREADGROUP"} && HasKeyword(args, "BLOCK"))
    && !(id.keyPrefix.Some? && name in {"SORT", "SORT_RO"} && (HasKeyword(args, "BY") || HasKeyword(args, "GET")))
    && name !in id.blockedCommands
    && (id.allowedCommands.Some? ==> name in id.allowedCommands.value)
    && (DefaultBlock(name) ==> id.legacy || id.allowedCommands.Some? || admin)
    && (id.readOnly ==> ReadCommand(name))
  }

  /** A named command is permitted exactly when every rule of the policy holds of its upper-cased name. */
  lemma PermittedIffPolicy(id: Identity, c: Command, t: Text)
    requires c.name != ""
    ensures Check(id, c, t).Ok? <==> Policy(id, Upper(c.name), c.args, t)
  {
    hide HasKeyword, AdminAllow, Upper, HardDeny, ReadCommand, DefaultBlock;
  }

  // ---------------------------------------------------------------- policy only narrows

  /** `tight` blocks at least what `loose` blocks, in every setting. */
  predicate Narrower(tight: Identity, loose: Identity) {
    && loose.blockedCommands <= tight.blockedCommands
    && tight.allowedCommands.Some? == loose.allowedCommands.Some?
    && (loose.allowedCommands.Some? ==> tight.allowedCommands.value <= loose.allowedCommands.value)
    && tight.allowedScripts <= loose.allowedScripts
    && (loose.readOnly ==> tight.readOnly)
    && (loose.keyPrefix.Some? ==> tight.keyPrefix.Some?)
    && (tight.isAdmin ==> loose.isAdmin)
    && (tight.legacy ==> loose.legacy)
  }

  /**
   Enlarging the blocklist, shrinking a present allowlist or the script set, setting read-only
   or a key prefix, and dropping admin or legacy never turn a denial into a permit.
   */
  lemma NarrowingNeverPermits(tight: Identity, loose: Identity, c: Command, t: Text)
    requires Narrower(tight, loose) && Check(tight, c, t).Ok?
    ensures Check(loose, c, t).Ok?
  {
  }

  /** Transaction state is beyond every identity, admins included, in every spelling. */
  lemma TransactionStateIsNeverPermitted(id: Identity, c: Command, t: Text)
    requires TransactionState(Upper(c.name))
    ensures Check(id, c, t).Err?
  {
  }

  /** What a newly set allowlist can open: a default-blocked command that nothing else refuses or already permits. */
  predicate Opens(id: Identity, name: string) {
    DefaultBlock(name) && !id.legacy && !id.readOnly && name !in id.blockedCommands && !(id.isAdmin && name == "INFO")
  }

  /** The first two letters of the default-blocked commands, which no other listed command shares. */
  predicate Marked(name: string) {
    |name| >= 2 && (name[0], name[1]) in {('F', 'L'), ('K', 'E'), ('R', 'A'), ('I', 'N'), ('D', 'B')}
  }

  lemma MarkedIsNotHardDenied(name: string)
    requires Marked(name)
    ensures !HardDeny(name) && !Scripting(name)
  {
  }

  lemma MarkedReadsNoStructure(name: string)
    requires Marked(name)
    ensures !ReadsKeysOrHashes(name) && !ReadsListsOrSets(name) && !ReadsSortedSets(name)
  {
  }

  lemma MarkedReadsNothingElse(name: string)
    requires Marked(name)
    ensures !ReadsOthers(name)
  {
  }

  lemma MarkedIsNotRead(name: string)
    requires Marked(name)
    ensures !ReadCommand(name)
    ensures name !in {"XREAD", "XREADGROUP", "SORT", "SORT_RO", "CONFIG", "CLIENT", "SLOWLOG", "COMMAND", "LATENCY", "MEMORY", "ACL"}
  {
    hide ReadsKeysOrHashes, ReadsListsOrSets, ReadsSortedSets, ReadsOthers;
    MarkedReadsNoStructure(name);
    MarkedReadsNothingElse(name);
  }

  lemma DefaultBlockIsOrdinary(name: string)
    requires DefaultBlock(name)
    ensures Marked(name) && Upper(name) == name
  {
  }

  /**
   Giving an identity without an allowlist one narrows its permissions exactly when the list
   names no default-blocked command that it would open.
   */
  lemma NewAllowlistNarrowsIff(id: Identity, allowed: set<string>, t: Text)
    requires id.allowedCommands.None?
    ensures (forall c :: Check(id.(allowedCommands := Some(allowed)), c, t).Ok? ==> Check(id, c, t).Ok?)
            <==> forall name :: name in allowed ==> !Opens(id, name)
  {
    var listed := id.(allowedCommands := Some(allowed));
    forall c | Check(listed, c, t).Ok? && Check(id, c, t).Err?
      ensures Upper(c.name) in allowed && Opens(id, Upper(c.name))
    {
      hide HardDeny, ReadCommand, Upper, HasKeyword;
      DefaultBlockIsOrdinary(Upper(c.name));
      MarkedIsNotRead(Upper(c.name));
    }
    forall name | name in allowed && Opens(id, name)
      ensures Check(listed, Command(name, []), t).Ok? && Check(id, Command(name, []), t).Err?
    {
      DefaultBlockIsOrdinary(name);
      MarkedIsNotHardDenied(name);
      MarkedIsNotRead(name);
      hide HardDeny, ReadCommand, Scripting, Upper, Marked, HasKeyword;
    }
  }

  // ---------------------------------------------------------------- spelling

  /** The same ASCII letter, in whichever case, or the same other character. */
  predicate SameLetter(a: char, b: char) {
    a == b || ('A' <= a <= 'Z' && b as int == a as int + 32) || ('A' <= b <= 'Z' && a as int == b as int + 32)
  }

  predicate SameWord(a: string, b: string) {
    |a| == |b| && forall i :: 0 <= i < |a| ==> SameLetter(a[i], b[i])
  }

  /** Upper-casing identifies exactly the words that differ only in case, and picks the spelling in capitals. */
  lemma UpperIffSameWord(a: string, b: string)
    ensures Upper(a) == Upper(b) <==> SameWord(a, b)
    ensures SameWord(a, Upper(a)) && forall i :: 0 <= i < |a| ==> !('a' <= Upper(a)[i] <= 'z')
  {
    if Upper(a) == Upper(b) {
      forall i | 0 <= i < |a|
        ensures SameLetter(a[i], b[i])
      {
        assert Upper(a)[i] == Upper(b)[i];
      }
    }
  }

  /** No decision depends on the case of a command's name. */
  lemma CaseDoesNotMatter(id: Identity, c: Command, name: string, t: Text)
    requires SameWord(c.name, name)
    ensures Check(id, c.(name := name), t) == Check(id, c, t)
  {
    UpperIffSameWord(c.name, name);
    hide Upper, HardDeny, ReadCommand, HasKeyword, AdminAllow, CheckScripting, DefaultBlock;
  }

  /** An argument that spells a word of capitals, in whichever case. */
  predicate Spells(arg: Bytes, word: string) {
    |arg| == |word| && forall i :: 0 <= i < |arg| ==> arg[i] == word[i] as int || arg[i] == word[i] as int + 32
  }

  lemma KeywordIffSpelled(arg: Bytes, word: string)
    requires forall i :: 0 <= i < |word| ==> 'A' <= word[i] <= 'Z'
    ensures IsKeyword(arg, word) <==> Spells(arg, word)
  {
  }

  lemma KeywordsAreSpelled(args: seq<Bytes>, word: string)
    requires forall i :: 0 <= i < |word| ==> 'A' <= word[i] <= 'Z'
    ensures HasKeyword(args, word) <==> exists i :: 0 <= i < |args| && Spells(args[i], word)
  {
    forall i | 0 <= i < |args|
      ensures IsKeyword(args[i], word) <==> Spells(args[i], word)
    {
      KeywordIffSpelled(args[i], word);
    }
  }

  lemma RefusalsByName(id: Identity, c: Command, t: Text)
    requires c.name != ""
    ensures var name, r := Upper(c.name), Check(id, c, t);
            var blocking := name in {"XREAD", "XREADGROUP"} && HasKeyword(c.args, "BLOCK");
            && (blocking && !HardDeny(name) && !Scripting(name) ==> r == Err(Forbidden("NOPERM blocking XREAD is not allowed")))
            && (!blocking && r.Err? ==>
                  r == Err(Forbidden("NOPERM this token does not have permission to run '" + name + "'")))
  {
    hide Upper, HardDeny, ReadCommand, HasKeyword, AdminAllow, DefaultBlock, Scripting;
  }

  /**
   A refusal names the command in capitals, except that a blocking stream read has a message of
   its own, which it always gets: whoever asks, and however BLOCK is spelled.
   */
  lemma RefusalsNameTheCommand(id: Identity, c: Command, t: Text)
    requires c.name != ""
    ensures var blocking := Upper(c.name) in {"XREAD", "XREADGROUP"} && exists i :: 0 <= i < |c.args| && Spells(c.args[i], "BLOCK");
            var r := Check(id, c, t);
            if blocking then r == Err(Forbidden("NOPERM blocking XREAD is not allowed"))
            else r.Err? ==> r == Err(Forbidden("NOPERM this token does not have permission to run '" + Upper(c.name) + "'"))
  {
    hide Check, Upper, HardDeny, Scripting, HasKeyword, Spells;
    KeywordsAreSpelled(c.args, "BLOCK");
    StreamReadsAreOrdinary(Upper(c.name));
    RefusalsByName(id, c, t);
  }

  lemma StreamReadsAreOrdinary(name: string)
    ensures name in {"XREAD", "XREADGROUP"} ==> !HardDeny(name) && !Scripting(name)
  {
    assert name in {"XREAD", "XREADGROUP"} ==> name[0] == 'X';
  }

  /** Prefixed identities may not read keys through SORT patterns, however BY and GET are spelled. */
  lemma SortPatternsNeedNoPrefix(id: Identity, c: Command, t: Text)
    requires id.keyPrefix.Some? && Upper(c.name) in {"SORT", "SORT_RO"}
    requires exists i :: 0 <= i < |c.args| && (Spells(c.args[i], "BY") || Spells(c.args[i], "GET"))
    ensures Check(id, c, t).Err?
  {
    KeywordsAreSpelled(c.args, "BY");
    KeywordsAreSpelled(c.args, "GET");
    hide Upper, HardDeny, ReadCommand, HasKeyword, AdminAllow, Spells, DefaultBlock, Scripting;
  }

  /** Admin exceptions only lift refusals that the tables impose: outside them an admin's policy is anyone's. */
  lemma AdminsGainOnlyExceptions(id: Identity, c: Command, t: Text)
    requires id.isAdmin && Check(id, c, t).Ok? && Check(id.(isAdmin := false), c, t).Err?
    ensures AdminAllow(Upper(c.name), c.args, t) && (HardDeny(Upper(c.name)) || DefaultBlock(Upper(c.name)))
  {
    hide Upper, HardDeny, ReadCommand, HasKeyword, AdminAllow, DefaultBlock, Scripting;
  }

  // ---------------------------------------------------------------- the form in which commands are sent

  const UNITS: set<Bytes> := {[77], [75, 77], [70, 84], [77, 73]}  // M KM FT MI

  function Lower(arg: Bytes): (r: Bytes)
    ensures |r| == |arg|
  {
    seq(|arg|, i requires 0 <= i < |arg| => if 65 <= arg[i] <= 90 then arg[i] + 32 else arg[i])
  }

  /** Rewrites the distance unit of GEODIST, which plain Redis wants in lower case. */
  function Normalize(c: Command): Command {
    if c.name == "GEODIST" && |c.args| == 4 && c.args[3] in UNITS
    then c.(args := c.args[3 := Lower(c.args[3])])
    else c
  }

  /** Only the unit of a four-argument GEODIST changes, and only in case; it ends up as plain Redis accepts it. */
  lemma NormalizingOnlyLowersUnits(c: Command)
    ensures Normalize(c).name == c.name && |Normalize(c).args| == |c.args|
    ensures forall i :: 0 <= i < |c.args| && Normalize(c).args[i] != c.args[i] ==>
              c.name == "GEODIST" && i == 3 && c.args[i] in UNITS && Normalize(c).args[i] == Lower(c.args[i])
    ensures c.name == "GEODIST" && |c.args| == 4 ==>
              && (c.args[3] == [77] ==> Normalize(c).args[3] == [109])             // M to m
              && (c.args[3] == [75, 77] ==> Normalize(c).args[3] == [107, 109])    // KM to km
              && (c.args[3] == [70, 84] ==> Normalize(c).args[3] == [102, 116])    // FT to ft
              && (c.args[3] == [77, 73] ==> Normalize(c).args[3] == [109, 105])    // MI to mi
  {
    if c.name == "GEODIST" && |c.args| == 4 && c.args[3] in UNITS {
      var unit := Lower(c.args[3]);
      assert |unit| == 1 ==> unit == [unit[0]];
      assert |unit| == 2 ==> unit == [unit[0], unit[1]];
    }
  }

  /** The check of GEODIST reads none of its arguments but the first. */
  lemma OnlyFirstArgumentMatters(id: Identity, c: Command, args: seq<Bytes>, t: Text)
    requires c.name == "GEODIST" && c.args != [] && args != [] && args[0] == c.args[0]
    ensures Check(id, c.(args := args), t) == Check(id, c, t)
  {
    var name := Upper(c.name);
    assert |name| == 7 && name[0] == 'G' && !Scripting(name);
    hide HardDeny, ReadCommand, Scripting, DefaultBlock, Upper, HasKeyword;
  }

  lemma NormalizeTwice(c: Command)
    ensures Normalize(Normalize(c)) == Normalize(c)
  {
    if Normalize(c) != c {
      assert Lower(c.args[3])[0] >= 97;
    }
  }

  /** Normalizing never changes the decision, so what is sent passes the check in the form it is sent. */
  lemma NormalizingKeepsTheDecision(id: Identity, c: Command, t: Text)
    ensures Check(id, Normalize(c), t) == Check(id, c, t)
    ensures Normalize(Normalize(c)) == Normalize(c)
  {
    NormalizeTwice(c);
    hide Check;
    if Normalize(c) != c {
      OnlyFirstArgumentMatters(id, c, Normalize(c).args, t);
    }
  }
}

/** Mapping verified token claims to an identity. */
module JwtIdentity {
  import opened Common
  import opened Resp
  import opened Acl

  datatype Claims = Claims(
    sub: string, resourceAccess: map<string, seq<string>>, pool: Option<string>, blockedCommands: seq<string>,
    keyPrefix: Option<string>)

  /** `pools` maps each configured pool to its approved script digests. */
  datatype TokenPolicy = TokenPolicy(clientId: string, rolePrefix: string, pools: map<string, set<string>>)

  datatype AuthError = Refused(message: string)

  predicate HasRole(p: TokenPolicy, claims: Claims, role: string) {
    p.clientId in claims.resourceAccess && p.rolePrefix + role in claims.resourceAccess[p.clientId]
  }

  function IdentityOf(p: TokenPolicy, claims: Claims): Result<Identity, AuthError> {
    var pool := if claims.pool.Some? then claims.pool.value else "default";
    if !HasRole(p, claims, "admin") && !HasRole(p, claims, "write") && !HasRole(p, claims, "read") then
      Err(Refused("NOPERM no redis role"))
    else if pool !in p.pools then Err(Refused("NOPERM invalid redis pool"))
    else
      var admin := HasRole(p, claims, "admin");
      var readOnly := !admin && !HasRole(p, claims, "write");
      Ok(Identity(readOnly, admin, false, None, set b | b in claims.blockedCommands :: Upper(b), p.pools[pool],
                  claims.keyPrefix, pool, claims.sub))
  }

  /**
   Roles decide what an identity may do: admin makes an administrator, write or admin lets it
   write, read alone is read-only, and without any of the three, or with a pool that is not
   configured, there is no identity.  Everything else is carried over from claims and pool.
   */
  lemma RolesDecide(p: TokenPolicy, claims: Claims)
    ensures var roles := if p.clientId in claims.resourceAccess then claims.resourceAccess[p.clientId] else [];
            var admin, write, read := p.rolePrefix + "admin" in roles, p.rolePrefix + "write" in roles, p.rolePrefix + "read" in roles;
            var pool := if claims.pool == None then "default" else claims.pool.value;
            match IdentityOf(p, claims)
            case Err(e) =>
              if admin || write || read then pool !in p.pools && e == Refused("NOPERM invalid redis pool")
              else e == Refused("NOPERM no redis role")
            case Ok(id) =>
              && (admin || write || read) && pool in p.pools
              && (id.isAdmin <==> admin) && (id.readOnly <==> !admin && !write)
              && id.pool == pool && id.allowedScripts == p.pools[pool] && !id.legacy && id.allowedCommands == None
              && id.keyPrefix == claims.keyPrefix && id.subject == claims.sub
              && forall b :: b in id.blockedCommands <==> exists i :: 0 <= i < |claims.blockedCommands| && b == Upper(claims.blockedCommands[i])
  {
    hide Upper;
    var r := IdentityOf(p, claims);
    if r.Ok? {
      forall b | b in r.value.blockedCommands
        ensures exists i :: 0 <= i < |claims.blockedCommands| && b == Upper(claims.blockedCommands[i])
      {
        var c :| c in claims.blockedCommands && b == Upper(c);
        var i :| 0 <= i < |claims.blockedCommands| && claims.blockedCommands[i] == c;
      }
    }
  }

  /** Claiming more blocked commands takes away exactly those commands, in any spelling, and nothing else. */
  lemma BlockedClaimsTakeAwayExactly(p: TokenPolicy, claims: Claims, extra: seq<string>, c: Command, t: Text)
    requires IdentityOf(p, claims).Ok?
    ensures var more := IdentityOf(p, claims.(blockedCommands := claims.blockedCommands + extra));
            more.Ok? && Narrower(more.value, IdentityOf(p, claims).value) &&
            (Check(more.value, c, t).Ok? <==>
               Check(IdentityOf(p, claims).value, c, t).Ok? && forall b :: b in extra ==> Upper(b) != Upper(c.name))
  {
    hide HasKeyword, AdminAllow, Upper, HardDeny, ReadCommand;
    var id, more := IdentityOf(p, claims).value, IdentityOf(p, claims.(blockedCommands := claims.blockedCommands + extra)).value;
    assert more.blockedCommands == id.blockedCommands + set b | b in extra :: Upper(b);
  }

  /** Holding more roles never turns a permit into a denial. */
  lemma MoreRolesNeverDeny(p: TokenPolicy, claims: Claims, roles: seq<string>, c: Command, t: Text)
    requires IdentityOf(p, claims).Ok? && Check(IdentityOf(p, claims).value, c, t).Ok?
    requires p.clientId in claims.resourceAccess
    ensures var more := IdentityOf(p, claims.(resourceAccess := claims.resourceAccess[p.clientId := claims.resourceAccess[p.clientId] + roles]));
            more.Ok? && Check(more.value, c, t).Ok?
  {
    hide Check, Upper;
    var more := claims.(resourceAccess := claims.resourceAccess[p.clientId := claims.resourceAccess[p.clientId] + roles]);
    assert forall role :: HasRole(p, claims, role) ==> HasRole(p, more, role);
    NarrowingNeverPermits(IdentityOf(p, claims).value, IdentityOf(p, more).value, c, t);
  }
}
