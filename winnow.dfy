/** The winnowing table: user rules that say which module wins a file that
    several modules provide, and the sifting of detected conflicts against it. */
module Winnow {
  import opened Wrappers
  import opened Seqs

  /** A map from a file's path to the module preferred for it, updated in place. */
  class WinnowingTable {
    var rules: map<string, string>

    /** The default table has no rules. */
    constructor ()
      ensures rules == map[]
    {
      rules := map[];
    }

    /** The rule for `filePath`, looked up by the path's text. */
    function GetPreferredModule(filePath: string): (r: Option<string>)
      reads this
      ensures r.Some? <==> filePath in rules
      ensures r.Some? ==> r.value == rules[filePath]
    {
      if filePath in rules then Some(rules[filePath]) else None
    }

    /** Inserts or overwrites the rule for `filePath`; other rules stay. */
    method SetRule(filePath: string, moduleId: string)
      modifies this
      ensures rules == old(rules)[filePath := moduleId]
      ensures GetPreferredModule(filePath) == Some(moduleId)
      ensures forall p :: p != filePath ==> GetPreferredModule(p) == old(GetPreferredModule(p))
    {
      rules := rules[filePath := moduleId];
    }

    /** Drops the rule for `filePath`; removing an absent rule changes nothing. */
    method RemoveRule(filePath: string)
      modifies this
      ensures rules == old(rules) - {filePath}
      ensures GetPreferredModule(filePath) == None
      ensures forall p :: p != filePath ==> GetPreferredModule(p) == old(GetPreferredModule(p))
      ensures filePath !in old(rules) ==> rules == old(rules)
    {
      rules := rules - {filePath};
    }
  }

  /** A file provided by several modules, relative to the system partition, with
      the modules in the order they were found. */
  datatype ConflictDetail = ConflictDetail(relativePath: string, contendingModules: seq<string>)

  datatype ChaffConflict = ChaffConflict(path: string, contenders: seq<string>, selected: string, isForced: bool)

  function SystemPath(relativePath: string): string {
    "/system/" + relativePath
  }

  /** One conflict sifted against a snapshot of the rules: a rule's module wins
      when it is among the contenders, otherwise the last contender, and
      "unknown" when there is none. `isForced` reports that a rule exists, even
      one naming a module that does not contend. */
  function Sift(c: ConflictDetail, rules: map<string, string>): (r: ChaffConflict)
    ensures r.path == "/system/" + c.relativePath && r.contenders == c.contendingModules
    ensures r.isForced <==> r.path in rules
    ensures r.isForced && rules[r.path] in c.contendingModules ==> r.selected == rules[r.path]
    ensures !(r.isForced && rules[r.path] in c.contendingModules) ==>
      r.selected == (if c.contendingModules == [] then "unknown" else Last(c.contendingModules))
    ensures c.contendingModules != [] ==> r.selected in c.contendingModules
    ensures c.contendingModules == [] ==> r.selected == "unknown"
  {
    var path := SystemPath(c.relativePath);
    var fallback := if c.contendingModules == [] then "unknown" else Last(c.contendingModules);
    var selected :=
      if path in rules && rules[path] in c.contendingModules then rules[path] else fallback;
    ChaffConflict(path, c.contendingModules, selected, path in rules)
  }

  /** `sift_conflicts`: one result per conflict, in the conflicts' order. */
  function SiftConflicts(conflicts: seq<ConflictDetail>, table: WinnowingTable): (r: seq<ChaffConflict>)
    reads table
    ensures |r| == |conflicts|
    ensures forall i :: 0 <= i < |r| ==> r[i] == Sift(conflicts[i], table.rules)
  {
    seq(|conflicts|, i requires 0 <= i < |conflicts| reads table => Sift(conflicts[i], table.rules))
  }

  /** A rule naming a contending module makes that module win. */
  lemma RuleForContenderWins(c: ConflictDetail, rules: map<string, string>, m: string)
    requires m in c.contendingModules
    ensures var r := Sift(c, rules[SystemPath(c.relativePath) := m]);
      r.selected == m && r.isForced
  {
  }

  /** A rule naming a module that does not contend changes nothing but the
      forced flag. */
  lemma RuleForOutsiderIsIgnored(c: ConflictDetail, rules: map<string, string>, m: string)
    requires m !in c.contendingModules
    requires SystemPath(c.relativePath) !in rules
    ensures var forced := Sift(c, rules[SystemPath(c.relativePath) := m]);
      var free := Sift(c, rules);
      forced.selected == free.selected && forced.isForced && !free.isForced
  {
  }
}
