/** The registry of environment domains. */
module Domains {
  import opened Common
  import opened Text

  datatype Domain = Domain(hostname: string, primary: bool, archivedAt: Option<Time>, environment: Uuid)

  type Rows = map<Uuid, Domain>

  datatype Outcome =
    | Done | Malformed | HostnameTaken | PrimaryTaken | PrimaryRequired | PrimaryKept | NotFound | Duplicate

  function WithoutDot(s: string): string {
    if s != "" && s[|s| - 1] == '.' then s[..|s| - 1] else s
  }

  /** Strips one trailing dot. */
  function NormalizeHostname(value: string): string {
    ToLower(WithoutDot(TrimSpace(value)))
  }

  /** Letters and digits, and the two other letters that fold to one of them. */
  predicate IsHostnameChar(c: char) {
    IsAlnum(c) || c == '\U{17f}' || c == '\U{212a}'
  }

  predicate IsLabel(s: string) {
    && 1 <= |s| <= 63 && IsHostnameChar(s[0]) && IsHostnameChar(s[|s| - 1])
    && forall i :: 0 <= i < |s| ==> IsHostnameChar(s[i]) || s[i] == '-'
  }

  /** Two or more labels with dots between them. */
  predicate HostnamePattern(s: string) {
    |Split(s, '.')| >= 2 && forall i :: 0 <= i < |Split(s, '.')| ==> IsLabel(Split(s, '.')[i])
  }

  predicate IsValidHostname(value: string) {
    ByteLength(NormalizeHostname(value)) <= 253 && HostnamePattern(NormalizeHostname(value))
  }

  /** What a write stores: validation normalises the hostname first. */
  function Normalized(d: Domain): Domain {
    d.(hostname := NormalizeHostname(d.hostname))
  }

  predicate Active(rows: Rows, id: Uuid) {
    id in rows && rows[id].archivedAt.None?
  }

  predicate ActivePrimary(rows: Rows, id: Uuid, environment: Uuid) {
    Active(rows, id) && rows[id].primary && rows[id].environment == environment
  }

  predicate HostnameUsed(rows: Rows, id: Uuid, hostname: string) {
    exists o :: o in rows && Active(rows, o) && o != id && rows[o].hostname == hostname
  }

  predicate OtherPrimary(rows: Rows, id: Uuid, environment: Uuid) {
    exists o :: o in rows && ActivePrimary(rows, o, environment) && o != id
  }

  /** The uniqueness check before every write; an archived row is not checked at all. */
  function CheckUnique(rows: Rows, id: Uuid, d: Domain): Outcome {
    if d.archivedAt.Some? then Done
    else if HostnameUsed(rows, id, d.hostname) then HostnameTaken
    else if d.primary then (if OtherPrimary(rows, id, d.environment) then PrimaryTaken else Done)
    else if OtherPrimary(rows, id, d.environment) then Done
    else PrimaryRequired
  }

  datatype Operation =
    | Create(id: Uuid, domain: Domain)
    | Update(id: Uuid, domain: Domain)
    | Archive(environment: Uuid, id: Uuid, now: Time)
    | Destroy(id: Uuid)

  /** Normalisation, then the format, then uniqueness. */
  function CheckWrite(rows: Rows, id: Uuid, d: Domain): Outcome {
    if !IsValidHostname(Normalized(d).hostname) then Malformed else CheckUnique(rows, id, Normalized(d))
  }

  function OutcomeOf(rows: Rows, op: Operation): Outcome {
    match op
    case Create(id, d) =>
      if CheckWrite(rows, id, d) != Done then CheckWrite(rows, id, d)
      else if id in rows then Duplicate
      else Done
    case Update(id, d) =>
      if CheckWrite(rows, id, d) != Done then CheckWrite(rows, id, d)
      else if id !in rows then NotFound
      else Done
    case Archive(environment, id, _) =>
      if id !in rows || rows[id].environment != environment || rows[id].archivedAt.Some? then NotFound
      else if rows[id].primary then PrimaryKept
      else Done
    case Destroy(_) => Done
  }

  function Apply(rows: Rows, op: Operation): Rows {
    if OutcomeOf(rows, op) != Done then rows
    else match op
      case Create(id, d) => rows[id := Normalized(d)]
      case Update(id, d) => rows[id := Normalized(d)]
      case Archive(_, id, now) => rows[id := rows[id].(archivedAt := Some(now))]
      case Destroy(id) => rows - {id}
  }

  class DomainTable {
    var rows: Rows

    constructor ()
      ensures rows == map[]
    {
      rows := map[];
    }

    method EnsureUnique(id: Uuid, d: Domain) returns (r: Outcome)
      ensures r == CheckUnique(rows, id, d)
      ensures r == Done <==> d.archivedAt.Some? ||
                             (!HostnameUsed(rows, id, d.hostname) &&
                              (d.primary <==> !OtherPrimary(rows, id, d.environment)))
    {
      if d.archivedAt.Some? {
        return Done;
      }
      if HostnameUsed(rows, id, d.hostname) {
        return HostnameTaken;
      }
      if d.primary {
        return if OtherPrimary(rows, id, d.environment) then PrimaryTaken else Done;
      }
      return if OtherPrimary(rows, id, d.environment) then Done else PrimaryRequired;
    }

    method Create(id: Uuid, d: Domain) returns (r: Outcome)
      modifies this
      ensures r == OutcomeOf(old(rows), Operation.Create(id, d))
      ensures rows == Apply(old(rows), Operation.Create(id, d))
    {
      var entity := d.(hostname := NormalizeHostname(d.hostname));
      if !IsValidHostname(entity.hostname) {
        return Malformed;
      }
      r := EnsureUnique(id, entity);
      if r == Done {
        if id in rows {
          return Duplicate;
        }
        rows := rows[id := entity];
      }
    }

    method Update(id: Uuid, d: Domain) returns (r: Outcome)
      modifies this
      ensures r == OutcomeOf(old(rows), Operation.Update(id, d))
      ensures rows == Apply(old(rows), Operation.Update(id, d))
    {
      var entity := d.(hostname := NormalizeHostname(d.hostname));
      if !IsValidHostname(entity.hostname) {
        return Malformed;
      }
      r := EnsureUnique(id, entity);
      if r == Done {
        if id !in rows {
          return NotFound;
        }
        rows := rows[id := entity];
      }
    }

    method Archive(environment: Uuid, id: Uuid, now: Time) returns (r: Outcome)
      modifies this
      ensures r == OutcomeOf(old(rows), Operation.Archive(environment, id, now))
      ensures rows == Apply(old(rows), Operation.Archive(environment, id, now))
    {
      if id !in rows || rows[id].environment != environment || rows[id].archivedAt.Some? {
        return NotFound;
      }
      if rows[id].primary {
        return PrimaryKept;
      }
      rows := rows[id := rows[id].(archivedAt := Some(now))];
      return Done;
    }

    method Destroy(id: Uuid)
      modifies this
      ensures rows == Apply(old(rows), Operation.Destroy(id))
    {
      rows := rows - {id};
    }
  }

  // ---------------------------------------------------------------- invariants

  ghost predicate HostnamesDistinct(rows: Rows) {
    forall a, b :: Active(rows, a) && Active(rows, b) && rows[a].hostname == rows[b].hostname ==> a == b
  }

  ghost predicate OnePrimary(rows: Rows) {
    forall a, b, e :: ActivePrimary(rows, a, e) && ActivePrimary(rows, b, e) ==> a == b
  }

  predicate HasPrimary(rows: Rows, environment: Uuid) {
    exists id :: id in rows && ActivePrimary(rows, id, environment)
  }

  ghost predicate AliasesHavePrimary(rows: Rows) {
    forall id :: Active(rows, id) ==> HasPrimary(rows, rows[id].environment)
  }

  function Run(rows: Rows, ops: seq<Operation>): Rows {
    if ops == [] then rows else Apply(Run(rows, ops[..|ops| - 1]), ops[|ops| - 1])
  }

  predicate Writes(op: Operation, id: Uuid) {
    (op.Create? || op.Update?) && op.id == id
  }

  /** An active row after a write is the row written, or was there before. */
  lemma RowOrigin(rows: Rows, op: Operation, id: Uuid)
    requires Active(Apply(rows, op), id)
    ensures (Active(rows, id) && Apply(rows, op)[id] == rows[id]) ||
            (Writes(op, id) && OutcomeOf(rows, op) == Done && Apply(rows, op)[id] == Normalized(op.domain))
  {
  }

  /** A row that is written active passed the check against all others. */
  lemma WrittenIsUnique(rows: Rows, op: Operation, a: Uuid, b: Uuid)
    requires Active(Apply(rows, op), a) && Active(Apply(rows, op), b) && a != b
    requires Writes(op, a) && OutcomeOf(rows, op) == Done
    ensures var rows' := Apply(rows, op);
            && rows'[a].hostname != rows'[b].hostname
            && (rows'[a].primary && rows'[b].primary ==> rows'[a].environment != rows'[b].environment)
  {
    RowOrigin(rows, op, b);
  }

  /**
   The check passes exactly if writing the row as it is would leave the registry in order,
   and otherwise says what would be wrong.
   */
  lemma CheckedExactly(rows: Rows, id: Uuid, d: Domain)
    requires HostnamesDistinct(rows) && OnePrimary(rows) && d.archivedAt.None?
    ensures var rows', r := rows[id := d], CheckUnique(rows, id, d);
            && (r == HostnameTaken <==> !HostnamesDistinct(rows'))
            && (r == PrimaryTaken <==> HostnamesDistinct(rows') && !OnePrimary(rows'))
            && (r == PrimaryRequired <==> HostnamesDistinct(rows') && !HasPrimary(rows', d.environment))
            && (r == Done <==> HostnamesDistinct(rows') && OnePrimary(rows') && HasPrimary(rows', d.environment))
  {
    var rows' := rows[id := d];
    assert Active(rows', id) && rows'[id] == d;
    forall o | o != id ensures Active(rows', o) <==> Active(rows, o) {
    }
    HostnamesExactly(rows, id, d);
    PrimariesExactly(rows, id, d);
    if OtherPrimary(rows, id, d.environment) {
      var o :| ActivePrimary(rows, o, d.environment) && o != id;
      assert ActivePrimary(rows', o, d.environment);
    }
  }

  lemma HostnamesExactly(rows: Rows, id: Uuid, d: Domain)
    requires HostnamesDistinct(rows) && d.archivedAt.None?
    ensures HostnamesDistinct(rows[id := d]) <==> !HostnameUsed(rows, id, d.hostname)
  {
    var rows' := rows[id := d];
    if HostnameUsed(rows, id, d.hostname) {
      var o :| o in rows && Active(rows, o) && o != id && rows[o].hostname == d.hostname;
      assert Active(rows', o) && Active(rows', id) && rows'[o].hostname == rows'[id].hostname;
    } else {
      forall a, b | Active(rows', a) && Active(rows', b) && rows'[a].hostname == rows'[b].hostname ensures a == b {
        assert a != id ==> Active(rows, a);
        assert b != id ==> Active(rows, b);
      }
    }
  }

  lemma PrimariesExactly(rows: Rows, id: Uuid, d: Domain)
    requires OnePrimary(rows) && d.archivedAt.None?
    ensures OnePrimary(rows[id := d]) <==> !(d.primary && OtherPrimary(rows, id, d.environment))
  {
    var rows' := rows[id := d];
    if d.primary && OtherPrimary(rows, id, d.environment) {
      var o :| ActivePrimary(rows, o, d.environment) && o != id;
      assert ActivePrimary(rows', o, d.environment) && ActivePrimary(rows', id, d.environment);
    } else {
      forall a, b, e | ActivePrimary(rows', a, e) && ActivePrimary(rows', b, e) ensures a == b {
        assert a != id ==> ActivePrimary(rows, a, e);
        assert b != id ==> ActivePrimary(rows, b, e);
      }
    }
  }

  /**
   A write is accepted exactly if its hostname, normalised, is valid, the check passes, and it
   creates a new row or updates one there is. It stores what it was given, the hostname
   normalised, and touches no other row; a refused one touches none.
   */
  lemma WriteStores(rows: Rows, op: Operation)
    requires op.Create? || op.Update?
    ensures OutcomeOf(rows, op) == Done <==>
            && IsValidHostname(NormalizeHostname(op.domain.hostname))
            && CheckUnique(rows, op.id, Normalized(op.domain)) == Done && (op.Update? <==> op.id in rows)
    ensures OutcomeOf(rows, op) != Done ==> Apply(rows, op) == rows
    ensures OutcomeOf(rows, op) == Done ==>
            var row := Apply(rows, op)[op.id];
            && op.id in Apply(rows, op) && row.hostname == NormalizeHostname(op.domain.hostname)
            && row.primary == op.domain.primary && row.environment == op.domain.environment
            && row.archivedAt == op.domain.archivedAt
            && forall o :: o in rows && o != op.id ==> o in Apply(rows, op) && Apply(rows, op)[o] == rows[o]
  {
  }

  /** Archiving takes effect exactly on an active alias of the environment; its primary is kept, else none is found. */
  lemma ArchivedExactly(rows: Rows, environment: Uuid, id: Uuid, now: Time)
    ensures var op := Archive(environment, id, now);
            var here := Active(rows, id) && rows[id].environment == environment;
            && (OutcomeOf(rows, op) == PrimaryKept <==> ActivePrimary(rows, id, environment))
            && (OutcomeOf(rows, op) == NotFound <==> !here)
            && Apply(rows, op) == (if here && !rows[id].primary
                                   then rows[id := rows[id].(archivedAt := Some(now))] else rows)
  {
  }

  /** Upper and lower case are the same to the registry, and what is stored has no capital letters. */
  lemma CaseDoesNotMatter(value: string)
    ensures NormalizeHostname(ToLower(value)) == NormalizeHostname(value)
    ensures forall k :: 0 <= k < |NormalizeHostname(value)| ==> !('A' <= NormalizeHostname(value)[k] <= 'Z')
  {
    LowerTrims(value);
    LowerKeepsDot(TrimSpace(value));
    LowerFacts(WithoutDot(TrimSpace(value)));
  }

  lemma LowerKeepsDot(t: string)
    ensures WithoutDot(ToLower(t)) == ToLower(WithoutDot(t))
  {
    if t != "" {
      assert ToLower(t)[|t| - 1] == ToLowerChar(t[|t| - 1]);
      assert ToLower(t)[..|t| - 1] == ToLower(t[..|t| - 1]);
    }
  }

  lemma LowerTrims(s: string)
    ensures TrimSpace(ToLower(s)) == ToLower(TrimSpace(s))
  {
    LowerTrimsLeft(s);
    LowerTrimsRight(TrimLeft(s));
  }

  lemma {:induction false} LowerTrimsLeft(s: string)
    ensures TrimLeft(ToLower(s)) == ToLower(TrimLeft(s))
    decreases s
  {
    if s != "" {
      LowerTrimsLeft(s[1..]);
      assert ToLower(s)[1..] == ToLower(s[1..]);
    }
  }

  lemma {:induction false} LowerTrimsRight(s: string)
    ensures TrimRight(ToLower(s)) == ToLower(TrimRight(s))
    decreases s
  {
    if s != "" {
      LowerTrimsRight(s[..|s| - 1]);
      assert ToLower(s)[..|s| - 1] == ToLower(s[..|s| - 1]);
    }
  }

  lemma RegistryStep(rows: Rows, op: Operation)
    requires HostnamesDistinct(rows) && OnePrimary(rows)
    ensures HostnamesDistinct(Apply(rows, op)) && OnePrimary(Apply(rows, op))
  {
    var rows' := Apply(rows, op);
    forall a, b | Active(rows', a) && Active(rows', b) && a != b
      ensures rows'[a].hostname != rows'[b].hostname
      ensures rows'[a].primary && rows'[b].primary ==> rows'[a].environment != rows'[b].environment
    {
      RowOrigin(rows, op, a);
      RowOrigin(rows, op, b);
      if Active(rows, a) && rows'[a] == rows[a] && Active(rows, b) && rows'[b] == rows[b] {
        assert ActivePrimary(rows, a, rows[a].environment) <==> rows[a].primary;
        assert ActivePrimary(rows, b, rows[a].environment) <==>
               rows[b].primary && rows[b].environment == rows[a].environment;
      } else if Writes(op, a) {
        WrittenIsUnique(rows, op, a, b);
      } else {
        WrittenIsUnique(rows, op, b, a);
      }
    }
  }

  /** After any sequence of writes active hostnames are distinct and no environment has two primaries. */
  lemma {:induction false} RegistryInvariant(ops: seq<Operation>)
    ensures HostnamesDistinct(Run(map[], ops)) && OnePrimary(Run(map[], ops))
    decreases ops
  {
    if ops == [] {
    } else {
      RegistryInvariant(ops[..|ops| - 1]);
      RegistryStep(Run(map[], ops[..|ops| - 1]), ops[|ops| - 1]);
    }
  }

  predicate HasAlias(rows: Rows, id: Uuid, environment: Uuid) {
    exists o :: o in rows && Active(rows, o) && o != id && rows[o].environment == environment
  }

  /**
   The write takes the active primary away from an environment that still has
   other active domains: an update that archives or moves it, or a destroy.
   */
  predicate OrphansAliases(rows: Rows, op: Operation) {
    && (op.Update? || op.Destroy?)
    && OutcomeOf(rows, op) == Done
    && Active(rows, op.id) && rows[op.id].primary
    && HasAlias(rows, op.id, rows[op.id].environment)
    && (op.Update? ==> op.domain.archivedAt.Some? || op.domain.environment != rows[op.id].environment)
  }

  lemma PrimarySurvives(rows: Rows, op: Operation, id: Uuid)
    requires HostnamesDistinct(rows) && OnePrimary(rows) && AliasesHavePrimary(rows) && !OrphansAliases(rows, op)
    requires Active(Apply(rows, op), id)
    ensures HasPrimary(Apply(rows, op), Apply(rows, op)[id].environment)
  {
    var rows' := Apply(rows, op);
    var e := rows'[id].environment;
    RowOrigin(rows, op, id);
    if ActivePrimary(rows', id, e) {
    } else if Active(rows, id) && rows'[id] == rows[id] {
      var p :| ActivePrimary(rows, p, e);
      assert HasAlias(rows, p, e);
      KeepsPrimary(rows, op, p, e);
    } else {
      assert OtherPrimary(rows, id, e);
      var p :| ActivePrimary(rows, p, e) && p != id;
      assert ActivePrimary(rows', p, e);
    }
  }

  /** The primary of an environment with other active domains is only lost by a write that orphans them. */
  lemma KeepsPrimary(rows: Rows, op: Operation, p: Uuid, e: Uuid)
    requires HostnamesDistinct(rows) && OnePrimary(rows) && ActivePrimary(rows, p, e) && HasAlias(rows, p, e)
    requires !OrphansAliases(rows, op)
    ensures HasPrimary(Apply(rows, op), e)
  {
    if op.Update? && op.id == p && OutcomeOf(rows, op) == Done {
      assert op.domain.primary || OtherPrimary(rows, p, e);
      assert ActivePrimary(Apply(rows, op), p, e);
    } else {
      assert ActivePrimary(Apply(rows, op), p, e);
    }
  }

  /** An alias is left without a primary exactly by an update or destroy that orphans it. */
  lemma AliasesKeepPrimaryExactly(rows: Rows, op: Operation)
    requires HostnamesDistinct(rows) && OnePrimary(rows) && AliasesHavePrimary(rows)
    ensures AliasesHavePrimary(Apply(rows, op)) <==> !OrphansAliases(rows, op)
  {
    var rows' := Apply(rows, op);
    if OrphansAliases(rows, op) {
      var e := rows[op.id].environment;
      var o :| Active(rows, o) && o != op.id && rows[o].environment == e;
      assert Active(rows', o) && rows'[o].environment == e;
      forall p | ActivePrimary(rows', p, e) ensures false {
        assert p != op.id;
        assert ActivePrimary(rows, p, e) && ActivePrimary(rows, op.id, e);
      }
      assert !HasPrimary(rows', e);
    } else {
      forall id | Active(rows', id) ensures HasPrimary(rows', rows'[id].environment) {
        PrimarySurvives(rows, op, id);
      }
    }
  }

  /** Under creating and archiving alone every environment with an alias has a primary. */
  lemma {:induction false} AliasesAlwaysHavePrimary(ops: seq<Operation>)
    requires forall n :: 0 <= n < |ops| ==> ops[n].Create? || ops[n].Archive?
    ensures AliasesHavePrimary(Run(map[], ops))
    decreases ops
  {
    if ops == [] {
    } else {
      AliasesAlwaysHavePrimary(ops[..|ops| - 1]);
      RegistryInvariant(ops[..|ops| - 1]);
      AliasesKeepPrimaryExactly(Run(map[], ops[..|ops| - 1]), ops[|ops| - 1]);
    }
  }

  /** An archiving update is not checked, so it can archive the primary of an environment with aliases. */
  lemma ArchivingUpdateOrphansAliases(name: string, alias: string, now: Time)
    requires IsValidHostname(name) && NormalizeHostname(name) == name && name != alias
    ensures var rows := map[1 := Domain(name, true, None, 9), 2 := Domain(alias, false, None, 9)];
            var op := Update(1, Domain(name, true, Some(now), 9));
            HostnamesDistinct(rows) && OnePrimary(rows) && AliasesHavePrimary(rows) && OrphansAliases(rows, op)
  {
    var rows: Rows := map[1 := Domain(name, true, None, 9), 2 := Domain(alias, false, None, 9)];
    assert ActivePrimary(rows, 1, 9) && Active(rows, 2);
    assert OutcomeOf(rows, Update(1, Domain(name, true, Some(now), 9))) == Done;
  }

  predicate IsWord(s: string) {
    1 <= |s| <= 31 && forall i :: 0 <= i < |s| ==> 'a' <= s[i] <= 'z'
  }

  /** Valid hostnames exist: for one, two words with a dot between them. */
  lemma WordsAreValid(a: string, b: string)
    requires IsWord(a) && IsWord(b)
    ensures var name := a + ['.'] + b; IsValidHostname(name) && NormalizeHostname(name) == name
  {
    WordsNormalize(a, b);
    WordsMatch(a, b);
    ByteLengthAtMost(a + ['.'] + b);
  }

  lemma WordsNormalize(a: string, b: string)
    requires IsWord(a) && IsWord(b)
    ensures NormalizeHostname(a + ['.'] + b) == a + ['.'] + b
  {
    var name := a + ['.'] + b;
    var last := name[|name| - 1];
    assert name[0] == a[0] && last == b[|b| - 1] && last != '.';
    assert Trimmed(name);
    TrimSpaceFacts(name);
    forall i | 0 <= i < |name| ensures ToLowerChar(name[i]) == name[i] {
      if i < |a| {
        assert name[i] == a[i];
      } else if i > |a| {
        assert name[i] == b[i - |a| - 1];
      }
    }
    assert ToLower(name) == name;
  }

  lemma WordsMatch(a: string, b: string)
    requires IsWord(a) && IsWord(b)
    ensures HostnamePattern(a + ['.'] + b)
  {
    SplitCons(a, b, '.');
    SplitOne(b, '.');
    WordIsLabel(a);
    WordIsLabel(b);
    assert Split(a + ['.'] + b, '.') == [a, b];
  }

  lemma WordIsLabel(s: string)
    requires IsWord(s)
    ensures IsLabel(s)
  {
  }

  // ---------------------------------------------------------------- trailing dots

  /** Ends in a dot or in white space once trimmed and freed of one dot. */
  predicate EndsOpen(value: string) {
    var t := WithoutDot(TrimSpace(value));
    t != "" && (t[|t| - 1] == '.' || IsSpace(t[|t| - 1]))
  }

  /** What normalisation stores is normalised exactly if the input does not end in such a way. */
  lemma NormalizedExactly(value: string)
    ensures NormalizeHostname(NormalizeHostname(value)) == NormalizeHostname(value) <==> !EndsOpen(value)
  {
    var t := WithoutDot(TrimSpace(value));
    TrimSpaceFacts(value);
    LowerFacts(t);
    TrimSpaceFacts(ToLower(t));
    assert t != "" ==> t[0] == TrimSpace(value)[0];
    if EndsOpen(value) {
      assert |NormalizeHostname(ToLower(t))| < |ToLower(t)|;
    }
  }

  predicate Closed(op: Operation) {
    op.Create? || op.Update? ==> !EndsOpen(op.domain.hostname)
  }

  /** No two active domains have names that normalise to the same name. */
  ghost predicate NamesDistinct(rows: Rows) {
    forall a, b | Active(rows, a) && Active(rows, b) ::
      NormalizeHostname(rows[a].hostname) == NormalizeHostname(rows[b].hostname) ==> a == b
  }

  /** The name that normalising again makes of what a write stores. */
  function FinalName(d: Domain): string {
    NormalizeHostname(NormalizeHostname(d.hostname))
  }

  /** Some other active domain has a name that normalises to this one. */
  predicate NameUsed(rows: Rows, id: Uuid, name: string) {
    exists o :: o in rows && Active(rows, o) && o != id && NormalizeHostname(rows[o].hostname) == name
  }

  predicate ActiveWrite(rows: Rows, op: Operation) {
    (op.Create? || op.Update?) && OutcomeOf(rows, op) == Done && op.domain.archivedAt.None?
  }

  /** An active domain is written whose name is in use, though not as it is stored. */
  predicate Clashes(rows: Rows, op: Operation) {
    ActiveWrite(rows, op) && NameUsed(rows, op.id, FinalName(op.domain))
  }

  /** From distinct names, one step of any kind makes two active names agree exactly if it clashes. */
  lemma NamesDistinctExactly(rows: Rows, op: Operation)
    requires NamesDistinct(rows)
    ensures NamesDistinct(Apply(rows, op)) <==> !Clashes(rows, op)
  {
    var rows' := Apply(rows, op);
    if Clashes(rows, op) {
      var o :| o in rows && Active(rows, o) && o != op.id &&
               NormalizeHostname(rows[o].hostname) == FinalName(op.domain);
      assert Active(rows', o) && Active(rows', op.id);
      assert NormalizeHostname(rows'[o].hostname) == NormalizeHostname(rows'[op.id].hostname);
    } else {
      forall a, b | Active(rows', a) && Active(rows', b) && a != b
        ensures NormalizeHostname(rows'[a].hostname) != NormalizeHostname(rows'[b].hostname)
      {
        PairStaysDistinct(rows, op, a, b);
      }
    }
  }

  lemma PairStaysDistinct(rows: Rows, op: Operation, a: Uuid, b: Uuid)
    requires NamesDistinct(rows) && !Clashes(rows, op) && a != b
    requires Active(Apply(rows, op), a) && Active(Apply(rows, op), b)
    ensures var rows' := Apply(rows, op);
            NormalizeHostname(rows'[a].hostname) != NormalizeHostname(rows'[b].hostname)
  {
    RowOrigin(rows, op, a);
    RowOrigin(rows, op, b);
    if Writes(op, a) && OutcomeOf(rows, op) == Done {
      NoClash(rows, op, a, b);
    } else if Writes(op, b) && OutcomeOf(rows, op) == Done {
      NoClash(rows, op, b, a);
    }
  }

  lemma NoClash(rows: Rows, op: Operation, a: Uuid, b: Uuid)
    requires !Clashes(rows, op) && a != b && Active(rows, b) && Active(Apply(rows, op), a)
    requires Writes(op, a) && OutcomeOf(rows, op) == Done
    ensures Active(Apply(rows, op), b) && Apply(rows, op)[b] == rows[b]
    ensures NormalizeHostname(Apply(rows, op)[a].hostname) != NormalizeHostname(rows[b].hostname)
  {
    assert !NameUsed(rows, a, FinalName(op.domain));
  }

  /**
   While stored names are normalised, a write clashes exactly if its hostname ends open
   and what is left of it is an active hostname: a caller can tell before the call.
   */
  lemma ClashesExactly(rows: Rows, op: Operation)
    requires AllNormalized(rows)
    ensures Clashes(rows, op) <==>
            ActiveWrite(rows, op) && EndsOpen(op.domain.hostname) && HostnameUsed(rows, op.id, FinalName(op.domain))
  {
    if ActiveWrite(rows, op) {
      NormalizedExactly(op.domain.hostname);
      assert NameUsed(rows, op.id, FinalName(op.domain)) <==> HostnameUsed(rows, op.id, FinalName(op.domain));
    }
  }

  /** Names are distinct at every moment of a run. */
  ghost predicate DistinctThroughout(ops: seq<Operation>) {
    && NamesDistinct(Run(map[], ops))
    && (ops != [] ==> DistinctThroughout(ops[..|ops| - 1]))
  }

  /** No step of a run clashes. */
  predicate NeverClashes(ops: seq<Operation>) {
    ops != [] ==>
      NeverClashes(ops[..|ops| - 1]) && !Clashes(Run(map[], ops[..|ops| - 1]), ops[|ops| - 1])
  }

  /** Over whole runs the two are the same. */
  lemma {:induction false} DistinctThroughoutExactly(ops: seq<Operation>)
    ensures DistinctThroughout(ops) <==> NeverClashes(ops)
    decreases ops
  {
    if ops != [] {
      var init := ops[..|ops| - 1];
      DistinctThroughoutExactly(init);
      if DistinctThroughout(init) {
        NamesDistinctExactly(Run(map[], init), ops[|ops| - 1]);
      }
    }
  }

  /** So if no written hostname ends open, active names are distinct however often they are normalised. */
  lemma NamesAlwaysDistinct(ops: seq<Operation>)
    requires forall n :: 0 <= n < |ops| ==> Closed(ops[n])
    ensures NamesDistinct(Run(map[], ops))
  {
    ClosedNeverClashes(ops);
    DistinctThroughoutExactly(ops);
  }

  lemma {:induction false} ClosedNeverClashes(ops: seq<Operation>)
    requires forall n :: 0 <= n < |ops| ==> Closed(ops[n])
    ensures NeverClashes(ops)
    decreases ops
  {
    if ops != [] {
      var init := ops[..|ops| - 1];
      ClosedNeverClashes(init);
      StoredNormalized(init);
      ClashesExactly(Run(map[], init), ops[|ops| - 1]);
      assert Closed(ops[|ops| - 1]);
    }
  }

  ghost predicate AllNormalized(rows: Rows) {
    forall id :: id in rows ==> NormalizeHostname(rows[id].hostname) == rows[id].hostname
  }

  lemma {:induction false} StoredNormalized(ops: seq<Operation>)
    requires forall n :: 0 <= n < |ops| ==> Closed(ops[n])
    ensures AllNormalized(Run(map[], ops))
    decreases ops
  {
    if ops == [] {
    } else {
      StoredNormalized(ops[..|ops| - 1]);
      NormalizedStep(Run(map[], ops[..|ops| - 1]), ops[|ops| - 1]);
    }
  }

  lemma NormalizedStep(rows: Rows, op: Operation)
    requires AllNormalized(rows) && Closed(op)
    ensures AllNormalized(Apply(rows, op))
  {
    forall id | id in Apply(rows, op)
      ensures NormalizeHostname(Apply(rows, op)[id].hostname) == Apply(rows, op)[id].hostname
    {
      if Writes(op, id) {
        NormalizedExactly(op.domain.hostname);
      }
      assert (id in rows && Apply(rows, op)[id].hostname == rows[id].hostname) ||
             (Writes(op, id) && Apply(rows, op)[id].hostname == NormalizeHostname(op.domain.hostname));
    }
  }

  /** Otherwise the same name is accepted twice: "x.." passes as "x." beside an active "x". */
  lemma DottedNameIsAcceptedTwice(rows: Rows, x: Uuid, id: Uuid)
    requires Active(rows, x) && id !in rows && HasPrimary(rows, rows[x].environment)
    requires var name := rows[x].hostname;
             IsValidHostname(name) && NormalizeHostname(name) == name && !HostnameUsed(rows, id, name + ".")
    ensures var op := Create(id, Domain(rows[x].hostname + "..", false, None, rows[x].environment));
            var rows' := Apply(rows, op);
            && OutcomeOf(rows, op) == Done && Active(rows', x) && Active(rows', id) && !NamesDistinct(rows')
  {
    var name := rows[x].hostname;
    DottedName(name);
    var op := Create(id, Domain(name + "..", false, None, rows[x].environment));
    assert OtherPrimary(rows, id, rows[x].environment);
    var rows' := Apply(rows, op);
    assert rows'[id].hostname == name + "." && rows'[x] == rows[x] && x != id;
    assert NormalizeHostname(rows'[id].hostname) == NormalizeHostname(rows'[x].hostname);
  }

  lemma DottedName(name: string)
    requires NormalizeHostname(name) == name && name != ""
    ensures NormalizeHostname(name + "..") == name + "." && NormalizeHostname(name + ".") == name
  {
    TrimSpaceFacts(name);
    var t := WithoutDot(TrimSpace(name));
    assert |t| == |name|;
    assert TrimSpace(name) == name && Trimmed(name) && ToLower(name) == name;
    TrimSpaceFacts(name + ".");
    TrimSpaceFacts(name + "..");
    assert (name + "..")[..|name + "."|] == name + ".";
    assert (name + ".")[..|name|] == name;
    LowerDot(name);
  }

  lemma LowerDot(name: string)
    requires ToLower(name) == name
    ensures ToLower(name + ".") == name + "."
  {
    forall i | 0 <= i < |name| ensures ToLowerChar(name[i]) == name[i] {
      assert ToLower(name)[i] == ToLowerChar(name[i]);
    }
  }
}
