/**
 * The configuration helpers of `src/helpers.ts`: the separator rewrite
 * `posixifyPath`, the validator `validateConfig` of the "sb-babel-cli"
 * section of a manifest, and the merge of that section into the command-line
 * configuration done by `loadConfigFromRoot`.
 *
 * Configuration values are JSON values; an object is its list of members in
 * `Object.keys` order.
 */
module Helpers {
  import opened Common

  datatype Json =
    | JNull
    | JBool(b: bool)
    | JNum(n: real)
    | JStr(s: string)
    | JArr(items: seq<Json>)
    | JObj(members: seq<Member>)

  datatype Member = Member(key: string, value: Json)

  /** `Object.keys(o)`. */
  function Keys(members: seq<Member>): (r: seq<string>)
    ensures |r| == |members|
    ensures forall i :: 0 <= i < |members| ==> r[i] == members[i].key
  {
    if members == [] then [] else [members[0].key] + Keys(members[1..])
  }

  /** A JavaScript object never holds the same key twice. */
  predicate DistinctKeys(members: seq<Member>)
  {
    forall i, j :: 0 <= i < j < |members| ==> members[i].key != members[j].key
  }

  /** `o[key]`: the value of the member named `key`, or None for `undefined`. */
  function Get(members: seq<Member>, key: string): (r: Option<Json>)
    ensures r.None? <==> key !in Keys(members)
  {
    if members == [] then None
    else if members[0].key == key then Some(members[0].value)
    else Get(members[1..], key)
  }

  // ---------------------------------------------------------------------------
  // posixifyPath (helpers.ts:14-16)
  // ---------------------------------------------------------------------------

  /** `s.split(sep)` for a one-character separator: the pieces between separators, at least one. */
  function Split(s: string, sep: char): (parts: seq<string>)
    ensures |parts| >= 1
    decreases |s|
  {
    var i := IndexOf(s, sep);
    if i < 0 then [s] else [s[..i]] + Split(s[i + 1..], sep)
  }

  /**
   * `s.split(sep)` is a round trip: no part holds the separator, and joining
   * the parts with it gives `s` back.
   */
  lemma {:induction false} SplitJoinsBack(s: string, sep: char)
    ensures forall k :: 0 <= k < |Split(s, sep)| ==> sep !in Split(s, sep)[k]
    ensures JoinWith(Split(s, sep), [sep]) == s
    decreases |s|
  {
    var i := IndexOf(s, sep);
    if i >= 0 {
      var pre, rest := s[..i], s[i + 1..];
      SplitJoinsBack(rest, sep);
      assert Split(s, sep) == [pre] + Split(rest, sep);
      JoinWithCons(pre, Split(rest, sep), [sep]);
      SplitAround(s, i);
    }
  }

  /** `parts.join(glue)`. */
  function JoinWith(parts: seq<string>, glue: string): string
  {
    if parts == [] then []
    else if |parts| == 1 then parts[0]
    else parts[0] + glue + JoinWith(parts[1..], glue)
  }

  /** `posixifyPath(filePath)`, with `sep` the platform separator `path.sep`. */
  function PosixifyPath(filePath: string, sep: char): string
  {
    JoinWith(Split(filePath, sep), "/")
  }

  /** Reference definition: every occurrence of `from` replaced by `to`, one character at a time. */
  function ReplaceChar(s: string, from: char, to: char): (r: string)
    ensures |r| == |s|
    ensures forall i :: 0 <= i < |s| ==> r[i] == if s[i] == from then to else s[i]
  {
    if s == [] then [] else [if s[0] == from then to else s[0]] + ReplaceChar(s[1..], from, to)
  }

  /**
   * Splitting on the separator and joining with '/' replaces every separator
   * by '/' and leaves every other character where it was.
   */
  lemma {:induction false} PosixifyReplacesSeparators(filePath: string, sep: char)
    ensures PosixifyPath(filePath, sep) == ReplaceChar(filePath, sep, '/')
    decreases |filePath|
  {
    var i := IndexOf(filePath, sep);
    if i >= 0 {
      var pre, rest := filePath[..i], filePath[i + 1..];
      var parts := Split(rest, sep);
      assert Split(filePath, sep) == [pre] + parts;
      JoinWithCons(pre, parts, "/");
      PosixifyReplacesSeparators(rest, sep);
      SplitAround(filePath, i);
      ReplaceCharAround(pre, rest, sep, '/');
      calc {
        PosixifyPath(filePath, sep);
        JoinWith([pre] + parts, "/");
        pre + "/" + JoinWith(parts, "/");
        pre + ['/'] + ReplaceChar(rest, sep, '/');
        ReplaceChar(filePath, sep, '/');
      }
    } else {
      ReplaceCharAbsent(filePath, sep, '/');
    }
  }

  /** Replacing in a string made of a separator-free head, a separator and a tail. */
  lemma ReplaceCharAround(pre: string, rest: string, from: char, to: char)
    requires from !in pre
    ensures ReplaceChar(pre + [from] + rest, from, to) == pre + [to] + ReplaceChar(rest, from, to)
  {
    ReplaceCharConcat(pre + [from], rest, from, to);
    ReplaceCharConcat(pre, [from], from, to);
    ReplaceCharAbsent(pre, from, to);
  }

  lemma JoinWithCons(head: string, tail: seq<string>, glue: string)
    requires |tail| >= 1
    ensures JoinWith([head] + tail, glue) == head + glue + JoinWith(tail, glue)
  {
    assert ([head] + tail)[1..] == tail;
  }

  lemma ReplaceCharAbsent(s: string, from: char, to: char)
    requires from !in s
    ensures ReplaceChar(s, from, to) == s
  {
    var r := ReplaceChar(s, from, to);
    assert forall i :: 0 <= i < |s| ==> r[i] == s[i];
  }

  lemma ReplaceCharConcat(a: string, b: string, from: char, to: char)
    ensures ReplaceChar(a + b, from, to) == ReplaceChar(a, from, to) + ReplaceChar(b, from, to)
  {
    var l := ReplaceChar(a + b, from, to);
    var r := ReplaceChar(a, from, to) + ReplaceChar(b, from, to);
    forall i | 0 <= i < |a + b| ensures l[i] == r[i] {
      if i >= |a| {
        assert (a + b)[i] == b[i - |a|];
      }
    }
  }

  /** On a POSIX platform the rewrite is the identity; elsewhere no separator is left. */
  lemma PosixifyPathOnPlatforms(filePath: string, sep: char)
    ensures sep == '/' ==> PosixifyPath(filePath, sep) == filePath
    ensures sep != '/' ==> sep !in PosixifyPath(filePath, sep)
    ensures |PosixifyPath(filePath, sep)| == |filePath|
  {
    PosixifyReplacesSeparators(filePath, sep);
    var r := ReplaceChar(filePath, sep, '/');
    if sep == '/' {
      assert r == filePath;
    }
  }

  // ---------------------------------------------------------------------------
  // validateConfig (helpers.ts:71-144)
  // ---------------------------------------------------------------------------

  /** `EXCLUDED_CONFIG_KEYS`, in declaration order. */
  const ExcludedKeys: seq<string> := ["rootDirectory", "sourceDirectory", "loadConfig", "specifiedArgs"]

  const MalformedRoot: string := "Config root is malformed"
  const UnknownPrefix: string := "Unknown config items: "

  /** `keys.splice(start, 1)`: remove the element at `start`, counting from the end when it is negative. */
  function Splice<T>(keys: seq<T>, start: int): (r: seq<T>)
    ensures 0 <= start < |keys| ==> r == keys[..start] + keys[start + 1..]
    ensures start == -1 && keys != [] ==> r == keys[..|keys| - 1]
    ensures keys == [] ==> r == []
  {
    var at := if start < 0 then (if |keys| + start < 0 then 0 else |keys| + start)
              else (if start > |keys| then |keys| else start);
    if at < |keys| then keys[..at] + keys[at + 1..] else keys
  }

  /** `items.forEach(item => keys.splice(keys.indexOf(item), 1))`. */
  function SpliceAll<T(==)>(keys: seq<T>, items: seq<T>): seq<T>
  {
    if items == [] then keys
    else
      var before := SpliceAll(keys, items[..|items| - 1]);
      Splice(before, IndexOf(before, items[|items| - 1]))
  }

  /** The keys a manifest config may use: the command-line keys with the excluded ones spliced out. */
  function ValidKeys(sourceKeys: seq<string>): seq<string>
  {
    SpliceAll(sourceKeys, ExcludedKeys)
  }

  /** `received.filter(item => !valid.includes(item))`. */
  // ExtraKeysAppend below states that the filter keeps the order of `received`.
  function ExtraKeys(received: seq<string>, valid: seq<string>): (r: seq<string>)
    ensures forall k :: k in r <==> k in received && k !in valid
    ensures |r| <= |received|
  {
    if received == [] then []
    else
      var last := received[|received| - 1];
      assert received == received[..|received| - 1] + [last];
      ExtraKeys(received[..|received| - 1], valid) + (if last in valid then [] else [last])
  }

  /** The filter keeps order: filtering a concatenation filters each part in turn. */
  lemma {:induction false} ExtraKeysAppend(a: seq<string>, b: seq<string>, valid: seq<string>)
    ensures ExtraKeys(a + b, valid) == ExtraKeys(a, valid) + ExtraKeys(b, valid)
    decreases |b|
  {
    if b == [] {
      assert a + b == a;
    } else {
      var init, last := b[..|b| - 1], b[|b| - 1];
      assert a + b == (a + init) + [last];
      assert (a + b)[..|a + b| - 1] == a + init;
      ExtraKeysAppend(a, init, valid);
      assert b[..|b| - 1] == init;
      AppendAssoc(ExtraKeys(a, valid), ExtraKeys(init, valid), if last in valid then [] else [last]);
    }
  }

  /** The one issue listing the unknown keys, when there are any. */
  function UnknownIssues(extra: seq<string>): seq<string>
  {
    if extra == [] then [] else [UnknownPrefix + JoinWith(extra, ", ")]
  }

  /** The type a field must have when it is present and not null. */
  datatype FieldType = BoolField | StringField | NumberField | StringArrayField | SourceMapsField

  predicate HasType(v: Json, t: FieldType)
  {
    match t
    case BoolField => v.JBool?
    case StringField => v.JStr?
    case NumberField => v.JNum?
    case StringArrayField => v.JArr? && forall i :: 0 <= i < |v.items| ==> v.items[i].JStr?
    case SourceMapsField => v.JBool? || v == JStr("inline")
  }

  datatype Check = Check(key: string, fieldType: FieldType, message: string)

  /** The typed fields, in the order they are checked, with their fixed messages. */
  const Checks: seq<Check> := [
    Check("watch", BoolField, "config.watch must be a valid boolean"),
    Check("ignored", StringArrayField, "config.ignored must be a valid array of strings"),
    Check("ignoredForRestart", StringArrayField, "config.ignoredForRestart must be a valid array of strings"),
    Check("sourceMaps", SourceMapsField, "config.sourceMaps must either be a boolean or \"inline\""),
    Check("resetCache", BoolField, "config.resetCache must be a valid boolean"),
    Check("keepExtraFiles", BoolField, "config.keepExtraFiles must be a valid boolean"),
    Check("execute", StringField, "config.execute must be a valid string"),
    Check("executeDelay", NumberField, "config.executeDelay must be a valid number"),
    Check("extensions", StringArrayField, "config.extensions must be a valid array of strings"),
    Check("printConfig", BoolField, "config.printConfig must be a valid boolean"),
    Check("nodeArgs", StringArrayField, "config.nodeArgs must be a valid array of strings"),
    Check("programArgs", StringArrayField, "config.programArgs must be a valid array of strings")
  ]

  /** `config.key != null && <not of the field's type>`. */
  predicate Fails(members: seq<Member>, c: Check)
  {
    var v := Get(members, c.key);
    v.Some? && v.value != JNull && !HasType(v.value, c.fieldType)
  }

  /** The messages of the failing checks, in check order. */
  function TypeIssues(members: seq<Member>, checks: seq<Check>): seq<string>
  {
    if checks == [] then []
    else (if Fails(members, checks[0]) then [checks[0].message] else []) + TypeIssues(members, checks[1..])
  }

  /** Reference definition of what `validateConfig(config, sourceConfig)` reports. */
  function Issues(config: Json, sourceKeys: seq<string>): seq<string>
  {
    if !config.JObj? then [MalformedRoot]
    else UnknownIssues(ExtraKeys(Keys(config.members), ValidKeys(sourceKeys))) + TypeIssues(config.members, Checks)
  }

  /** `EXCLUDED_CONFIG_KEYS.forEach(item => validKeys.splice(validKeys.indexOf(item), 1))`, in place. */
  method SpliceExcluded(sourceKeys: seq<string>) returns (validKeys: seq<string>)
    ensures validKeys == ValidKeys(sourceKeys)
  {
    validKeys := sourceKeys;
    for i := 0 to |ExcludedKeys|
      invariant validKeys == SpliceAll(sourceKeys, ExcludedKeys[..i])
    {
      assert ExcludedKeys[..i + 1][..i] == ExcludedKeys[..i];
      validKeys := Splice(validKeys, IndexOf(validKeys, ExcludedKeys[i]));
    }
    assert ExcludedKeys[..|ExcludedKeys|] == ExcludedKeys;
  }

  /**
   * `validateConfig(config, sourceConfig)`, with `sourceKeys` the keys of the
   * command-line configuration: a non-object root gives exactly one issue;
   * otherwise the unknown keys come first, then one fixed message per typed
   * field that is present, not null and of the wrong type, in check order.
   */
  method ValidateConfig(config: Json, sourceKeys: seq<string>) returns (issues: seq<string>)
    ensures issues == Issues(config, sourceKeys)
    ensures !config.JObj? ==> issues == [MalformedRoot]
  {
    issues := [];
    if !config.JObj? {
      issues := issues + [MalformedRoot];
      return;
    }
    var m := config.members;
    var validKeys := SpliceExcluded(sourceKeys);
    var extraKeys := ExtraKeys(Keys(m), validKeys);
    if |extraKeys| > 0 {
      issues := issues + [UnknownPrefix + JoinWith(extraKeys, ", ")];
    }
    ghost var head := issues;
    assert head == UnknownIssues(ExtraKeys(Keys(m), ValidKeys(sourceKeys)));
    // The twelve `if` statements of the source, one per row of `Checks`, in order.
    for i := 0 to |Checks|
      invariant issues == head + TypeIssues(m, Checks[..i])
    {
      if Fails(m, Checks[i]) {
        AppendAssoc(head, TypeIssues(m, Checks[..i]), [Checks[i].message]);
        issues := issues + [Checks[i].message];
      }
      TypeIssuesStep(m, Checks, i);
    }
    assert Checks[..|Checks|] == Checks;
  }

  /** Adding one more check adds its message exactly when it fails. */
  lemma {:induction false} TypeIssuesStep(m: seq<Member>, cs: seq<Check>, k: nat)
    requires k < |cs|
    ensures TypeIssues(m, cs[..k + 1]) ==
      TypeIssues(m, cs[..k]) + (if Fails(m, cs[k]) then [cs[k].message] else [])
  {
    TakeSnoc(cs, k);
    TypeIssuesAppend(m, cs[..k], [cs[k]]);
  }

  lemma {:induction false} TypeIssuesAppend(m: seq<Member>, a: seq<Check>, b: seq<Check>)
    ensures TypeIssues(m, a + b) == TypeIssues(m, a) + TypeIssues(m, b)
  {
    if a != [] {
      assert (a + b)[0] == a[0] && (a + b)[1..] == a[1..] + b;
      TypeIssuesAppend(m, a[1..], b);
    } else {
      assert a + b == b;
    }
  }

  /** A check's message is among the issues exactly when that check fails (the messages differ). */
  lemma {:induction false} TypeIssueIffFails(m: seq<Member>, checks: seq<Check>, i: nat)
    requires i < |checks|
    requires forall p, q :: 0 <= p < q < |checks| ==> checks[p].message != checks[q].message
    ensures checks[i].message in TypeIssues(m, checks) <==> Fails(m, checks[i])
  {
    if i == 0 {
      assert forall q :: 1 <= q < |checks| ==> checks[q].message != checks[0].message;
      MessageOnlyFromCheck(m, checks[1..], checks[0].message);
    } else {
      TypeIssueIffFails(m, checks[1..], i - 1);
      assert checks[0].message != checks[i].message;
    }
  }

  lemma {:induction false} MessageOnlyFromCheck(m: seq<Member>, checks: seq<Check>, msg: string)
    requires forall q :: 0 <= q < |checks| ==> checks[q].message != msg
    ensures msg !in TypeIssues(m, checks)
  {
    if checks != [] {
      MessageOnlyFromCheck(m, checks[1..], msg);
    }
  }

  lemma ChecksMessagesDistinct()
    ensures forall p, q :: 0 <= p < q < |Checks| ==> Checks[p].message != Checks[q].message
  {
  }

  /**
   * The messages that follow the unknown-keys issue hold the message of a
   * typed field exactly when that field is present, not null and of the
   * wrong type.
   */
  lemma ValidateReportsBadField(members: seq<Member>, i: nat)
    requires i < |Checks|
    ensures Checks[i].message in TypeIssues(members, Checks) <==> Fails(members, Checks[i])
  {
    ChecksMessagesDistinct();
    TypeIssueIffFails(members, Checks, i);
  }

  /** `sourceMaps` passes exactly when it is absent, null, a boolean or the string "inline". */
  lemma SourceMapsAccepted(members: seq<Member>)
    ensures Checks[3].message !in TypeIssues(members, Checks) <==>
      var v := Get(members, "sourceMaps");
      v.None? || v.value == JNull || v.value.JBool? || v.value == JStr("inline")
  {
    ValidateReportsBadField(members, 3);
  }

  /**
   * For an object config, the unknown keys are reported in one issue, first,
   * listing the config keys that are not valid, in config order; there is no
   * such issue when every key is valid; the type messages follow.
   */
  lemma UnknownKeysReported(config: Json, sourceKeys: seq<string>)
    requires config.JObj?
    ensures var extra := ExtraKeys(Keys(config.members), ValidKeys(sourceKeys));
      && (forall k :: k in extra <==> k in Keys(config.members) && k !in ValidKeys(sourceKeys))
      && (extra == [] ==> Issues(config, sourceKeys) == TypeIssues(config.members, Checks))
      && (extra != [] ==>
            Issues(config, sourceKeys) == [UnknownPrefix + JoinWith(extra, ", ")] + TypeIssues(config.members, Checks))
  {
  }

  /** Splicing out a key the list holds removes exactly that key. */
  lemma SplicePresent<T>(keys: seq<T>, item: T)
    requires item in keys
    requires forall i, j :: 0 <= i < j < |keys| ==> keys[i] != keys[j]
    ensures forall k :: k in Splice(keys, IndexOf(keys, item)) <==> k in keys && k != item
  {
    RemoveAtMembers(keys, IndexOf(keys, item));
  }

  /** ... and keeps the remaining keys distinct. */
  lemma SplicePresentDistinct<T>(keys: seq<T>, item: T)
    requires item in keys
    requires forall i, j :: 0 <= i < j < |keys| ==> keys[i] != keys[j]
    ensures var r := Splice(keys, IndexOf(keys, item));
      forall i, j :: 0 <= i < j < |r| ==> r[i] != r[j]
  {
    RemoveAtDistinct(keys, IndexOf(keys, item));
  }

  /** ... and keeps the last key when it is not the one removed. */
  lemma SplicePresentLast<T>(keys: seq<T>, item: T)
    requires item in keys && keys[|keys| - 1] != item
    ensures var r := Splice(keys, IndexOf(keys, item));
      |r| > 0 && r[|r| - 1] == keys[|keys| - 1]
  {
    SpliceKeepsLast(keys, IndexOf(keys, item));
  }

  lemma RemoveAtMembers<T>(keys: seq<T>, at: nat)
    requires at < |keys|
    requires forall i, j :: 0 <= i < j < |keys| ==> keys[i] != keys[j]
    ensures forall k :: k in keys[..at] + keys[at + 1..] <==> k in keys && k != keys[at]
  {
    var r := keys[..at] + keys[at + 1..];
    forall k ensures k in r <==> k in keys && k != keys[at] {
      if k in keys && k != keys[at] {
        var p :| 0 <= p < |keys| && keys[p] == k;
        if p < at { assert r[p] == k; } else { assert r[p - 1] == k; }
      }
      if k in r {
        var p :| 0 <= p < |r| && r[p] == k;
        if p < at { assert keys[p] == k; } else { assert keys[p + 1] == k; }
      }
    }
  }

  lemma RemoveAtDistinct<T>(keys: seq<T>, at: nat)
    requires at < |keys|
    requires forall i, j :: 0 <= i < j < |keys| ==> keys[i] != keys[j]
    ensures var r := keys[..at] + keys[at + 1..];
      forall i, j :: 0 <= i < j < |r| ==> r[i] != r[j]
  {
    var r := keys[..at] + keys[at + 1..];
    forall i, j | 0 <= i < j < |r| ensures r[i] != r[j] {
      var i' := if i < at then i else i + 1;
      var j' := if j < at then j else j + 1;
      assert r[i] == keys[i'] && r[j] == keys[j'];
    }
  }

  lemma SpliceKeepsLast<T>(keys: seq<T>, at: nat)
    requires at < |keys|
    ensures var r := keys[..at] + keys[at + 1..];
      at < |keys| - 1 ==> |r| > 0 && r[|r| - 1] == keys[|keys| - 1]
  {
  }

  /**
   * When the command-line keys are distinct and hold all four excluded keys,
   * the valid keys are exactly the others.
   */
  lemma ValidKeysWhenAllPresent(sourceKeys: seq<string>)
    requires forall i, j :: 0 <= i < j < |sourceKeys| ==> sourceKeys[i] != sourceKeys[j]
    requires forall x :: x in ExcludedKeys ==> x in sourceKeys
    ensures forall k :: k in ValidKeys(sourceKeys) <==> k in sourceKeys && k !in ExcludedKeys
  {
    assert forall i, j :: 0 <= i < j < |ExcludedKeys| ==> ExcludedKeys[i] != ExcludedKeys[j];
    SpliceAllPresent(sourceKeys, ExcludedKeys);
  }

  /** Splicing out, one after the other, distinct items the distinct keys all hold removes exactly them. */
  lemma {:induction false} SpliceAllPresent<T>(keys: seq<T>, items: seq<T>)
    requires forall i, j :: 0 <= i < j < |keys| ==> keys[i] != keys[j]
    requires forall i, j :: 0 <= i < j < |items| ==> items[i] != items[j]
    requires forall x :: x in items ==> x in keys
    ensures var r := SpliceAll(keys, items);
      && (forall k :: k in r <==> k in keys && k !in items)
      && (forall i, j :: 0 <= i < j < |r| ==> r[i] != r[j])
  {
    if items != [] {
      var init, last := items[..|items| - 1], items[|items| - 1];
      assert items == init + [last];
      SpliceAllPresent(keys, init);
      var before := SpliceAll(keys, init);
      assert last !in init by {
        forall p | 0 <= p < |init| ensures init[p] != last {
          assert items[p] == init[p];
        }
      }
      SplicePresent(before, last);
      SplicePresentDistinct(before, last);
    }
  }

  /** ... and leaves the last key last when it is not one of them. */
  lemma {:induction false} SpliceAllKeepsLast<T>(keys: seq<T>, items: seq<T>)
    requires forall i, j :: 0 <= i < j < |keys| ==> keys[i] != keys[j]
    requires forall i, j :: 0 <= i < j < |items| ==> items[i] != items[j]
    requires forall x :: x in items ==> x in keys
    requires keys != [] && keys[|keys| - 1] !in items
    ensures var r := SpliceAll(keys, items);
      |r| > 0 && r[|r| - 1] == keys[|keys| - 1]
  {
    if items != [] {
      var init, last := items[..|items| - 1], items[|items| - 1];
      assert items == init + [last];
      SpliceAllKeepsLast(keys, init);
      SpliceAllPresent(keys, init);
      var before := SpliceAll(keys, init);
      assert last !in init by {
        forall p | 0 <= p < |init| ensures init[p] != last {
          assert items[p] == init[p];
        }
      }
      SplicePresentLast(before, last);
    }
  }

  /** When the excluded key is missing, `indexOf` gives -1 and the splice drops the last key instead. */
  lemma SpliceAbsentDropsLast<T>(keys: seq<T>, item: T)
    requires item !in keys && keys != []
    ensures Splice(keys, IndexOf(keys, item)) == keys[..|keys| - 1]
  {
  }

  /**
   * When the command-line keys lack `specifiedArgs` but hold the three other
   * excluded keys, the last splice drops the last command-line key as well.
   */
  lemma ValidKeysWithoutSpecifiedArgs(sourceKeys: seq<string>)
    requires sourceKeys != []
    requires forall i, j :: 0 <= i < j < |sourceKeys| ==> sourceKeys[i] != sourceKeys[j]
    requires forall x :: x in ExcludedKeys[..3] ==> x in sourceKeys
    requires "specifiedArgs" !in sourceKeys && sourceKeys[|sourceKeys| - 1] !in ExcludedKeys
    ensures forall k :: k in ValidKeys(sourceKeys) <==>
      k in sourceKeys && k !in ExcludedKeys && k != sourceKeys[|sourceKeys| - 1]
  {
    var first := ExcludedKeys[..3];
    assert forall i, j :: 0 <= i < j < |first| ==> first[i] != first[j];
    SpliceAllPresent(sourceKeys, first);
    SpliceAllKeepsLast(sourceKeys, first);
    var before := SpliceAll(sourceKeys, first);
    assert ExcludedKeys == first + ["specifiedArgs"];
    assert SpliceAll(sourceKeys, ExcludedKeys) == Splice(before, IndexOf(before, "specifiedArgs"));
    RemoveAtMembers(before, |before| - 1);
    assert Splice(before, -1) == before[..|before| - 1] + before[|before|..];
  }

  /** The keys of the configuration the command line builds, in order; it has no `specifiedArgs`. */
  const CliKeys: seq<string> := [
    "sourceDirectory", "outputDirectory", "rootDirectory", "watch", "ignored", "ignoredForRestart",
    "sourceMaps", "resetCache", "keepExtraFiles", "execute", "executeDelay", "extensions",
    "loadConfig", "printConfig", "nodeArgs", "programArgs"]

  /**
   * With those keys `programArgs` is spliced out of the valid keys, so a
   * manifest section that only sets `programArgs` is reported as having an
   * unknown key.
   */
  lemma ProgramArgsReportedUnknown()
    ensures "programArgs" !in ValidKeys(CliKeys)
    ensures Issues(JObj([Member("programArgs", JArr([]))]), CliKeys) == [UnknownPrefix + "programArgs"]
  {
    ProgramArgsNotValid();
    var m := [Member("programArgs", JArr([]))];
    assert Keys(m) == ["programArgs"];
    var extra := ExtraKeys(["programArgs"], ValidKeys(CliKeys));
    assert extra == ["programArgs"] by {
      assert ["programArgs"][..0] == [];
    }
    assert UnknownIssues(extra) == [UnknownPrefix + "programArgs"];
    ProgramArgsHasNoTypeIssue(m);
    assert Issues(JObj(m), CliKeys) == UnknownIssues(extra) + [];
  }

  lemma ProgramArgsNotValid()
    ensures "programArgs" !in ValidKeys(CliKeys)
  {
    assert forall i, j :: 0 <= i < j < |CliKeys| ==> CliKeys[i] != CliKeys[j];
    assert ExcludedKeys[..3] == ["rootDirectory", "sourceDirectory", "loadConfig"];
    ValidKeysWithoutSpecifiedArgs(CliKeys);
  }

  lemma ProgramArgsHasNoTypeIssue(m: seq<Member>)
    requires m == [Member("programArgs", JArr([]))]
    ensures TypeIssues(m, Checks) == []
  {
    forall i | 0 <= i < |Checks| ensures !Fails(m, Checks[i]) {
    }
    NoFailureNoIssue(m, Checks);
  }

  lemma {:induction false} NoFailureNoIssue(m: seq<Member>, checks: seq<Check>)
    requires forall i :: 0 <= i < |checks| ==> !Fails(m, checks[i])
    ensures TypeIssues(m, checks) == []
  {
    if checks != [] {
      NoFailureNoIssue(m, checks[1..]);
    }
  }

  // ---------------------------------------------------------------------------
  // loadConfigFromRoot (helpers.ts:146-185)
  // ---------------------------------------------------------------------------

  /** What reading `package.json` in the root directory gives. */
  datatype Manifest =
    | Unreadable        // `access` failed: there is no readable manifest
    | Unparsable        // `JSON.parse` threw
    | Parsed(value: Json)

  /** The outcome of a call that may throw. */
  datatype Result<T> = Ok(value: T) | TypeError

  /** `s.includes(sub)` on a string. */
  predicate IsSubstring(sub: string, s: string)
  {
    exists i :: 0 <= i <= |s| && IsPrefix(sub, s[i..])
  }

  /**
   * `config.specifiedArgs.includes(key)`: membership for an array, substring
   * for a string, and a TypeError for anything else (`undefined` included).
   */
  function Includes(specifiedArgs: Option<Json>, key: string): (r: Result<bool>)
    ensures r.TypeError? <==> !(specifiedArgs.Some? && (specifiedArgs.value.JArr? || specifiedArgs.value.JStr?))
  {
    match specifiedArgs
    case Some(JArr(items)) => Ok(JStr(key) in items)
    case Some(JStr(s)) => Ok(IsSubstring(key, s))
    case _ => TypeError
  }

  /** The command-line value of `key` replaces the manifest's. */
  predicate Overrides(specifiedArgs: Option<Json>, manifestKeys: seq<string>, key: string)
    requires Includes(specifiedArgs, key).Ok?
  {
    Includes(specifiedArgs, key).value || key in ExcludedKeys || key !in manifestKeys
  }

  lemma ConsMember(m: Member, rest: seq<Member>)
    ensures Keys([m] + rest) == [m.key] + Keys(rest)
    ensures forall k :: Get([m] + rest, k) == if m.key == k then Some(m.value) else Get(rest, k)
  {
    assert ([m] + rest)[1..] == rest;
  }

  /** `o[key] = value`: replace the member in place, or append it when the key is new. */
  function SetMember(members: seq<Member>, key: string, value: Json): (r: seq<Member>)
    ensures key in Keys(members) ==> Keys(r) == Keys(members)
    ensures key !in Keys(members) ==> Keys(r) == Keys(members) + [key]
  {
    if members == [] then
      ConsMember(Member(key, value), []);
      [Member(key, value)]
    else
      var m := members[0];
      assert members == [m] + members[1..];
      ConsMember(m, members[1..]);
      if m.key == key then
        ConsMember(Member(key, value), members[1..]);
        [Member(key, value)] + members[1..]
      else
        var rest := SetMember(members[1..], key, value);
        ConsMember(m, rest);
        [m] + rest
  }

  /** After `o[key] = value`, `o[key]` is `value` and every other key reads as before. */
  lemma {:induction false} SetMemberGet(members: seq<Member>, key: string, value: Json)
    ensures Get(SetMember(members, key, value), key) == Some(value)
    ensures forall k :: k != key ==> Get(SetMember(members, key, value), k) == Get(members, k)
  {
    if members == [] {
      ConsMember(Member(key, value), []);
    } else {
      var m := members[0];
      assert members == [m] + members[1..];
      ConsMember(m, members[1..]);
      if m.key == key {
        ConsMember(Member(key, value), members[1..]);
      } else {
        SetMemberGet(members[1..], key, value);
        ConsMember(m, SetMember(members[1..], key, value));
      }
    }
  }

  /** The command-line keys the manifest does not have, in command-line order. */
  function NewKeys(cliKeys: seq<string>, manifestKeys: seq<string>): (r: seq<string>)
    ensures forall k :: k in r <==> k in cliKeys && k !in manifestKeys
  {
    if cliKeys == [] then []
    else
      var last := cliKeys[|cliKeys| - 1];
      assert cliKeys == cliKeys[..|cliKeys| - 1] + [last];
      NewKeys(cliKeys[..|cliKeys| - 1], manifestKeys) + (if last in manifestKeys then [] else [last])
  }

  /** The new keys keep command-line order: a concatenation gives the new keys of each part in turn. */
  lemma {:induction false} NewKeysAppend(a: seq<string>, b: seq<string>, manifestKeys: seq<string>)
    ensures NewKeys(a + b, manifestKeys) == NewKeys(a, manifestKeys) + NewKeys(b, manifestKeys)
    decreases |b|
  {
    if b == [] {
      assert a + b == a;
    } else {
      var init, last := b[..|b| - 1], b[|b| - 1];
      assert a + b == (a + init) + [last];
      assert (a + b)[..|a + b| - 1] == a + init;
      NewKeysAppend(a, init, manifestKeys);
      assert b[..|b| - 1] == init;
      AppendAssoc(NewKeys(a, manifestKeys), NewKeys(init, manifestKeys), if last in manifestKeys then [] else [last]);
    }
  }

  lemma NewKeysSnoc(cliKeys: seq<string>, key: string, manifestKeys: seq<string>)
    ensures NewKeys(cliKeys + [key], manifestKeys) ==
      NewKeys(cliKeys, manifestKeys) + (if key in manifestKeys then [] else [key])
  {
    assert (cliKeys + [key])[..|cliKeys|] == cliKeys;
  }

  /**
   * The state of the merge after the command-line keys `done`: the manifest
   * keys, then the new command-line keys, in order; every key reads from the
   * command line when it was visited and overrides, from the manifest
   * otherwise.
   */
  ghost predicate MergedUpTo(newConfig: seq<Member>, manifestConfig: seq<Member>, config: seq<Member>, done: seq<string>)
  {
    var sa := Get(config, "specifiedArgs");
    var mKeys := Keys(manifestConfig);
    && Keys(newConfig) == mKeys + NewKeys(done, mKeys)
    && (forall k :: k in done ==> Includes(sa, k).Ok?)
    && (forall k ::
          Get(newConfig, k) ==
            if k in done && Overrides(sa, mKeys, k) then Get(config, k) else Get(manifestConfig, k))
  }

  /** One step of the merge keeps `MergedUpTo`; the `in` test on the copy is the test on the manifest. */
  lemma MergeStep(newConfig: seq<Member>, manifestConfig: seq<Member>, config: seq<Member>, done: seq<string>, key: string)
    requires MergedUpTo(newConfig, manifestConfig, config, done)
    requires key !in done && key in Keys(config)
    requires Includes(Get(config, "specifiedArgs"), key).Ok?
    ensures Get(newConfig, key).None? <==> key !in Keys(manifestConfig)
    ensures var sa := Get(config, "specifiedArgs");
      var next := if Overrides(sa, Keys(manifestConfig), key)
        then SetMember(newConfig, key, Get(config, key).value) else newConfig;
      MergedUpTo(next, manifestConfig, config, done + [key])
  {
    var sa := Get(config, "specifiedArgs");
    var mKeys := Keys(manifestConfig);
    var next := if Overrides(sa, mKeys, key) then SetMember(newConfig, key, Get(config, key).value) else newConfig;
    assert Get(newConfig, key) == Get(manifestConfig, key);
    MergeStepKeys(newConfig, manifestConfig, config, done, key);
    MergeStepGet(newConfig, manifestConfig, config, done, key);
    assert forall k :: k in done + [key] <==> k in done || k == key;
  }

  lemma MergeStepKeys(newConfig: seq<Member>, manifestConfig: seq<Member>, config: seq<Member>, done: seq<string>, key: string)
    requires Keys(newConfig) == Keys(manifestConfig) + NewKeys(done, Keys(manifestConfig))
    requires key !in done
    requires Get(newConfig, key) == Get(manifestConfig, key)
    requires Get(config, key).Some? && Includes(Get(config, "specifiedArgs"), key).Ok?
    ensures var sa := Get(config, "specifiedArgs");
      var mKeys := Keys(manifestConfig);
      var next := if Overrides(sa, mKeys, key)
        then SetMember(newConfig, key, Get(config, key).value) else newConfig;
      Keys(next) == mKeys + NewKeys(done + [key], mKeys)
  {
    var mKeys := Keys(manifestConfig);
    NewKeysSnoc(done, key, mKeys);
    assert key in Keys(newConfig) <==> key in mKeys;
    if key !in mKeys {
      AppendAssoc(mKeys, NewKeys(done, mKeys), [key]);
    }
  }

  lemma MergeStepGet(newConfig: seq<Member>, manifestConfig: seq<Member>, config: seq<Member>, done: seq<string>, key: string)
    requires Includes(Get(config, "specifiedArgs"), key).Ok? && Get(config, key).Some?
    requires forall k ::
      Get(newConfig, k) ==
        if k in done && Overrides(Get(config, "specifiedArgs"), Keys(manifestConfig), k) then Get(config, k) else Get(manifestConfig, k)
    requires key !in done
    ensures var sa := Get(config, "specifiedArgs");
      var mKeys := Keys(manifestConfig);
      var next := if Overrides(sa, mKeys, key) then SetMember(newConfig, key, Get(config, key).value) else newConfig;
      forall k ::
        Get(next, k) ==
          if (k in done || k == key) && Overrides(sa, mKeys, k) then Get(config, k) else Get(manifestConfig, k)
  {
    var sa := Get(config, "specifiedArgs");
    if Overrides(sa, Keys(manifestConfig), key) {
      SetMemberGet(newConfig, key, Get(config, key).value);
    }
  }

  /**
   * `newConfig = {...manifestConfig}`, then for each command-line key in
   * order, the command-line value is copied over when the key is in
   * `specifiedArgs`, is an excluded key, or is not in the manifest config.
   * The first key throws when `specifiedArgs` is neither an array nor a
   * string.
   */
  method MergeConfig(manifestConfig: seq<Member>, config: seq<Member>) returns (r: Result<seq<Member>>)
    requires DistinctKeys(manifestConfig) && DistinctKeys(config)
    ensures var sa := Get(config, "specifiedArgs");
      r.TypeError? <==> config != [] && Includes(sa, config[0].key).TypeError?
    ensures r.Ok? ==> Keys(r.value) == Keys(manifestConfig) + NewKeys(Keys(config), Keys(manifestConfig))
    ensures r.Ok? ==> forall k ::
      Get(r.value, k) ==
        if k in Keys(config) && Overrides(Get(config, "specifiedArgs"), Keys(manifestConfig), k)
        then Get(config, k) else Get(manifestConfig, k)
  {
    var newConfig := manifestConfig;
    var cliKeys := Keys(config);
    var specifiedArgs := Get(config, "specifiedArgs");
    for i := 0 to |cliKeys|
      invariant MergedUpTo(newConfig, manifestConfig, config, cliKeys[..i])
      invariant i > 0 ==> Includes(specifiedArgs, cliKeys[0]).Ok?
    {
      var key := cliKeys[i];
      TakeSnoc(cliKeys, i);
      assert key !in cliKeys[..i];
      var specified := Includes(specifiedArgs, key);
      if specified.TypeError? {
        return TypeError;
      }
      MergeStep(newConfig, manifestConfig, config, cliKeys[..i], key);
      if specified.value || key in ExcludedKeys || Get(newConfig, key).None? {
        newConfig := SetMember(newConfig, key, Get(config, key).value);
      }
    }
    assert cliKeys[..|cliKeys|] == cliKeys;
    return Ok(newConfig);
  }

  /**
   * `loadConfigFromRoot(rootDirectory, config)` once the manifest has been
   * read: the command-line config comes back unchanged when there is no
   * readable or parsable manifest, when it is not an object, when it has no
   * non-null "sb-babel-cli" section, or when that section has any issue;
   * otherwise the section is merged with the command-line config.
   */
  method LoadConfigFromRoot(manifest: Manifest, config: seq<Member>) returns (r: Result<Json>)
    requires DistinctKeys(config)
    requires manifest.Parsed? && manifest.value.JObj? ==> DistinctKeys(manifest.value.members)
    requires manifest.Parsed? && manifest.value.JObj? ==>
      forall v :: Some(v) == Get(manifest.value.members, "sb-babel-cli") && v.JObj? ==> DistinctKeys(v.members)
    ensures !manifest.Parsed? ==> r == Ok(JObj(config))
    ensures manifest.Parsed? && !manifest.value.JObj? ==> r == Ok(JObj(config))
    ensures manifest.Parsed? && manifest.value.JObj? ==>
      var section := Get(manifest.value.members, "sb-babel-cli");
      (section.None? || section.value == JNull || Issues(section.value, Keys(config)) != []) ==> r == Ok(JObj(config))
    ensures manifest.Parsed? && manifest.value.JObj? ==>
      var section := Get(manifest.value.members, "sb-babel-cli");
      section.Some? && section.value != JNull && Issues(section.value, Keys(config)) == [] ==>
        && section.value.JObj?
        && (r.TypeError? <==> config != [] && Includes(Get(config, "specifiedArgs"), config[0].key).TypeError?)
        && (r.Ok? ==> r.value.JObj?)
        && (r.Ok? ==>
              Keys(r.value.members) == Keys(section.value.members) + NewKeys(Keys(config), Keys(section.value.members)))
        && (r.Ok? ==> forall k ::
              Get(r.value.members, k) ==
                if k in Keys(config) && Overrides(Get(config, "specifiedArgs"), Keys(section.value.members), k)
                then Get(config, k) else Get(section.value.members, k))
  {
    if !manifest.Parsed? {
      return Ok(JObj(config));
    }
    var parsed := manifest.value;
    if parsed == JNull || !(parsed.JObj? || parsed.JArr?) {
      return Ok(JObj(config));
    }
    var manifestConfig := if parsed.JObj? then Get(parsed.members, "sb-babel-cli") else None;
    if manifestConfig.Some? && manifestConfig.value != JNull {
      var issues := ValidateConfig(manifestConfig.value, Keys(config));
      if |issues| > 0 {
        return Ok(JObj(config));
      }
      var merged := MergeConfig(manifestConfig.value.members, config);
      if merged.TypeError? {
        return TypeError;
      }
      return Ok(JObj(merged.value));
    }
    return Ok(JObj(config));
  }

  /**
   * The command line builds its config without `specifiedArgs`, so a
   * manifest section that passes validation makes the merge throw.
   */
  lemma MissingSpecifiedArgsThrows(config: seq<Member>)
    requires config != [] && "specifiedArgs" !in Keys(config)
    ensures Includes(Get(config, "specifiedArgs"), config[0].key).TypeError?
  {
  }
}
