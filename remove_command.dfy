/**
 * `wally remove` (src/commands/remove.rs): each target names an alias and
 * optionally a realm; the alias is removed from that realm's table, or from
 * the Server, Shared and Dev tables in that order, and the file is written
 * only when every target was handled.
 */
module RemoveCommand {
  import opened Wrappers
  import opened Strings
  import opened PackageNames
  import opened Manifests
  import opened TomlDocuments
  import opened CommandUtils
  import opened AddCommand

  /** `AliasTarget`: an optional realm and the alias. */
  datatype AliasTarget = AliasTarget(realm: Option<Realm>, name: string)

  /** Why `wally remove` stops. */
  datatype RemoveError =
    | NoTargets                                      // "Specified no dependencies to remove!"
    | UnknownRealm(text: string)                     // `Realm::from_str` failed
    | NotAlphanumeric(text: string)                  // "Expected target ... to be alphanumeric."
    | NotATable(typeName: string, tableName: string) // "Found unexpectedly ... found for ..."
    | RemovedNotString(name: string)                 // `write_removal` unwraps a non-string value and panics

  /**
   * Rust's `char::is_alphanumeric` (Unicode Alphabetic or Numeric) is passed
   * in; on ASCII it holds exactly for letters and digits.
   */
  ghost predicate AgreesOnAscii(alphanumeric: char -> bool)
  {
    forall c: char :: (c as int) < 128 ==> (alphanumeric(c) <==> IsAsciiAlphanumeric(c))
  }

  /** `valid_identifier` as written: every character alphanumeric (so the empty alias passes). */
  predicate ValidIdentifierAsWritten(name: string, alphanumeric: char -> bool)
  {
    forall i :: 0 <= i < |name| ==> alphanumeric(name[i])
  }

  /** The identifier rule that accepts every alias `wally add` writes: alphanumeric characters and `_`. */
  predicate ValidIdentifier(name: string, alphanumeric: char -> bool)
  {
    forall i :: 0 <= i < |name| ==> alphanumeric(name[i]) || name[i] == '_'
  }

  /**
   * As written, no alias that `wally add` derives from a dashed package
   * name can be named again: the `-` became `_`, which is not alphanumeric.
   */
  lemma DashedAliasRejectedAsWritten(p: PackageParam, alphanumeric: char -> bool, i: nat)
    requires AgreesOnAscii(alphanumeric)
    requires p.alias.None? && i < |SpecName(p.spec)| && SpecName(p.spec)[i] == '-'
    ensures !ValidIdentifierAsWritten(AliasOf(p), alphanumeric)
  {
    assert AliasOf(p)[i] == '_';
    assert !alphanumeric('_');
  }

  /** The alias the integration test removes without error, "it_isnt_there", is refused as written. */
  lemma UnderscoreTargetRejectedAsWritten(alphanumeric: char -> bool)
    requires AgreesOnAscii(alphanumeric)
    ensures !ValidIdentifierAsWritten("it_isnt_there", alphanumeric)
    ensures ValidIdentifier("it_isnt_there", alphanumeric)
  {
    assert "it_isnt_there"[2] == '_';
    assert !alphanumeric('_');
    forall i | 0 <= i < |"it_isnt_there"|
      ensures alphanumeric("it_isnt_there"[i]) || "it_isnt_there"[i] == '_'
    {
      var c := "it_isnt_there"[i];
      assert IsAsciiLower(c) || c == '_';
    }
  }

  /** The two rules differ only on `_`. */
  lemma ValidIdentifierWidens(name: string, alphanumeric: char -> bool)
    ensures ValidIdentifierAsWritten(name, alphanumeric) ==> ValidIdentifier(name, alphanumeric)
    ensures '_' !in name ==> (ValidIdentifier(name, alphanumeric) <==> ValidIdentifierAsWritten(name, alphanumeric))
  {
  }

  /** `AliasTarget::from_str`: a realm before the first `:`, if any, then the alias, which must be an identifier. */
  function ParseAliasTarget(s: string, alphanumeric: char -> bool): (r: Result<AliasTarget, RemoveError>)
    ensures r.Ok? ==> ValidIdentifier(r.value.name, alphanumeric)
    ensures ':' !in s ==> (r.Ok? <==> ValidIdentifier(s, alphanumeric))
                          && (r.Ok? ==> r.value == AliasTarget(None, s))
    ensures r.Ok? && r.value.realm.Some? ==> s == RealmName(r.value.realm.value) + ":" + r.value.name
    ensures r.Ok? && r.value.realm.None? ==> s == r.value.name && ':' !in s
  {
    match SplitOnce(s, ':')
    case Some((realmText, name)) =>
      (match ParseRealm(realmText)
       case None => Err(UnknownRealm(realmText))
       case Some(realm) =>
         if ValidIdentifier(name, alphanumeric) then Ok(AliasTarget(Some(realm), name)) else Err(NotAlphanumeric(s)))
    case None =>
      if ValidIdentifier(s, alphanumeric) then Ok(AliasTarget(None, s)) else Err(NotAlphanumeric(s))
  }

  /** How a target is written: `realm:alias`, or the bare alias. */
  function TargetText(t: AliasTarget): string
  {
    if t.realm.Some? then RealmName(t.realm.value) + ":" + t.name else t.name
  }

  /** Writing a target and reading it back gives the target, when its alias is an identifier. */
  lemma ParseAliasTargetOfText(t: AliasTarget, alphanumeric: char -> bool)
    requires AgreesOnAscii(alphanumeric) && ValidIdentifier(t.name, alphanumeric)
    ensures ParseAliasTarget(TargetText(t), alphanumeric) == Ok(t)
  {
    assert !alphanumeric(':');
    assert ':' !in t.name;
    if t.realm.Some? {
      assert ':' !in RealmName(t.realm.value);
      SplitOnceAt(RealmName(t.realm.value), t.name, ':');
      assert RealmName(t.realm.value) + ":" + t.name == RealmName(t.realm.value) + [':'] + t.name;
    }
  }

  /** With the corrected rule every alias `wally add` derives from a package name can be removed by name. */
  lemma AddedAliasRemovable(p: PackageParam, alphanumeric: char -> bool)
    requires AgreesOnAscii(alphanumeric)
    requires p.alias.None? && (p.spec.Named? ==> Valid(p.spec.named)) && (p.spec.Required? ==> Valid(p.spec.required.name))
    ensures ParseAliasTarget(AliasOf(p), alphanumeric) == Ok(AliasTarget(None, AliasOf(p)))
  {
    AliasOfNameChars(p);
    var a := AliasOf(p);
    forall i | 0 <= i < |a| ensures alphanumeric(a[i]) || a[i] == '_' {
      assert IsAsciiLower(a[i]) || IsAsciiDigit(a[i]) || a[i] == '_';
    }
    assert ':' !in a;
  }

  // ---------------------------------------------------------------------
  // Removing

  /**
   * `remove_dependency_from_realm`: no table means nothing to do; an item
   * that is not a table is an error; otherwise the alias is taken out.
   */
  function RemoveFromRealm(doc: Document, realm: Realm, name: string): (r: Result<(Document, Option<Value>), RemoveError>)
  {
    var tableName := AsTableName(realm);
    var item: Option<Item> := Lookup(doc, tableName);
    match item
    case None => Ok((doc, None))
    case Some(TableItem(entries)) =>
      var (kept, removed) := Remove(entries, name);
      Ok((Set(doc, tableName, TableItem(kept)), removed))
    case Some(item) => Err(RemoveError.NotATable(TypeName(item), tableName))
  }

  /** The table `tableName` of `after` is that of `before` without `name`; a missing table stays missing. */
  ghost predicate TableWithout(before: Document, after: Document, tableName: string, name: string)
  {
    var item: Option<Item> := Lookup(before, tableName);
    match item
    case None => Lookup(after, tableName).None?
    case Some(TableItem(entries)) => Lookup(after, tableName) == Some(TableItem(Remove(entries, name).0))
    case Some(_) => false
  }

  /**
   * A removal fails exactly when the realm's item is not a table; it
   * changes only that table, takes out only that alias, reports what was
   * under it, and changes nothing when the alias or the table is absent.
   */
  lemma RemoveFromRealmMeaning(doc: Document, realm: Realm, name: string)
    ensures var item := Lookup(doc, AsTableName(realm));
            RemoveFromRealm(doc, realm, name).Err? <==> item.Some? && !item.value.TableItem?
    ensures RemoveFromRealm(doc, realm, name).Ok? ==>
      var (after, removed) := RemoveFromRealm(doc, realm, name).value;
      && TableWithout(doc, after, AsTableName(realm), name)
      && (forall k :: k != AsTableName(realm) ==> Lookup(after, k) == Lookup(doc, k))
      && (Lookup(doc, AsTableName(realm)).None? ==> removed.None?)
      && (Lookup(doc, AsTableName(realm)).Some? ==>
            removed == Lookup(Lookup(doc, AsTableName(realm)).value.entries, name))
      && (removed.None? ==> after == doc)
  {
    var tableName := AsTableName(realm);
    var item: Option<Item> := Lookup(doc, tableName);
    match item
    case None =>
    case Some(TableItem(entries)) =>
      var (kept, removed) := Remove(entries, name);
      forall k | k != tableName ensures Lookup(Set(doc, tableName, TableItem(kept)), k) == Lookup(doc, k) {
        SetOther(doc, tableName, TableItem(kept), k);
      }
      if removed.None? {
        SetSame(doc, tableName, TableItem(entries));
      }
    case Some(_) =>
  }

  /** `write_removal`: the removed value must be a string, or `as_str().unwrap()` panics. */
  function CheckRemoved(removed: Option<Value>, name: string): (r: Result<(), RemoveError>)
    ensures r.Err? <==> removed.Some? && !removed.value.Str?
  {
    if removed.Some? && !removed.value.Str? then Err(RemovedNotString(name)) else Ok(())
  }

  /** One realm after another, stopping at the first error. */
  function RemoveFromRealms(doc: Document, realms: seq<Realm>, name: string): (r: Result<Document, RemoveError>)
    decreases |realms|
  {
    if realms == [] then Ok(doc)
    else
      match RemoveFromRealm(doc, realms[0], name)
      case Err(e) => Err(e)
      case Ok((after, removed)) =>
        match CheckRemoved(removed, name)
        case Err(e) => Err(e)
        case Ok(_) => RemoveFromRealms(after, realms[1..], name)
  }

  /** `REALMS`: the order tried when a target names no realm. */
  const ALL_REALMS: seq<Realm> := [Server, Shared, Dev]

  lemma EveryRealmListed()
    ensures forall realm: Realm :: realm in ALL_REALMS
  {
    forall realm: Realm ensures realm in ALL_REALMS {
      var i := if realm == Server then 0 else if realm == Shared then 1 else 2;
      assert ALL_REALMS[i] == realm;
    }
  }

  /** The realms a target touches. */
  function TargetRealms(t: AliasTarget): (r: seq<Realm>)
    ensures t.realm.Some? ==> r == [t.realm.value]
    ensures t.realm.None? ==> forall realm: Realm :: realm in r
  {
    if t.realm.Some? then [t.realm.value]
    else
      EveryRealmListed();
      ALL_REALMS
  }

  /** The dependency tables of some realms. */
  function TableNames(realms: seq<Realm>): set<string>
  {
    set i | 0 <= i < |realms| :: AsTableName(realms[i])
  }

  /** A table holds no entry under `name`, or is absent. */
  ghost predicate Lacks(doc: Document, tableName: string, name: string)
  {
    Lookup(doc, tableName).None?
    || (Lookup(doc, tableName).value.TableItem? && !HasKey(Lookup(doc, tableName).value.entries, name))
  }

  /**
   * Every table of `before` is still a table in `after` and holds the same
   * entry as before under every key other than `name`.
   */
  ghost predicate KeepsEntries(before: Document, after: Document, name: string)
  {
    forall t :: TableKeeps(before, after, t, name)
  }

  /** `KeepsEntries` for the one table `t`. */
  ghost predicate TableKeeps(before: Document, after: Document, t: string, name: string)
  {
    Lookup(before, t).Some? && Lookup(before, t).value.TableItem? ==>
      && Lookup(after, t).Some? && Lookup(after, t).value.TableItem?
      && forall k :: k != name ==>
           Lookup(Lookup(after, t).value.entries, k) == Lookup(Lookup(before, t).value.entries, k)
  }

  lemma KeepsEntriesTransitive(a: Document, b: Document, c: Document, name: string)
    requires KeepsEntries(a, b, name) && KeepsEntries(b, c, name)
    ensures KeepsEntries(a, c, name)
  {
    forall t ensures TableKeeps(a, c, t, name) {
      assert TableKeeps(a, b, t, name);
      assert TableKeeps(b, c, t, name);
    }
  }

  /** One removal keeps every other entry of every table. */
  lemma RemoveFromRealmKeeps(doc: Document, realm: Realm, name: string)
    requires RemoveFromRealm(doc, realm, name).Ok?
    ensures KeepsEntries(doc, RemoveFromRealm(doc, realm, name).value.0, name)
  {
    RemoveFromRealmMeaning(doc, realm, name);
  }

  /** After one removal the realm's table lacks the alias. */
  lemma RemoveFromRealmLacks(doc: Document, realm: Realm, name: string)
    requires RemoveFromRealm(doc, realm, name).Ok?
    ensures Lacks(RemoveFromRealm(doc, realm, name).value.0, AsTableName(realm), name)
  {
    RemoveFromRealmMeaning(doc, realm, name);
  }

  /** Removing from some realms keeps every other entry of every table. */
  lemma {:induction false} RemoveFromRealmsKeeps(doc: Document, realms: seq<Realm>, name: string)
    requires RemoveFromRealms(doc, realms, name).Ok?
    ensures KeepsEntries(doc, RemoveFromRealms(doc, realms, name).value, name)
    decreases |realms|
  {
    if realms != [] {
      var after := RemoveFromRealm(doc, realms[0], name).value.0;
      RemoveFromRealmKeeps(doc, realms[0], name);
      RemoveFromRealmsKeeps(after, realms[1..], name);
      KeepsEntriesTransitive(doc, after, RemoveFromRealms(doc, realms, name).value, name);
    } else {
      assert RemoveFromRealms(doc, realms, name).value == doc;
    }
  }

  /** After removing from some realms, none of their tables holds the alias. */
  lemma {:induction false} RemoveFromRealmsLacks(doc: Document, realms: seq<Realm>, name: string)
    requires RemoveFromRealms(doc, realms, name).Ok?
    ensures forall i :: 0 <= i < |realms| ==> Lacks(RemoveFromRealms(doc, realms, name).value, AsTableName(realms[i]), name)
    decreases |realms|
  {
    if realms != [] {
      RemoveFromRealmLacks(doc, realms[0], name);
      var after := RemoveFromRealm(doc, realms[0], name).value.0;
      var rest := realms[1..];
      RemoveFromRealmsLacks(after, rest, name);
      RemovePreservesLacks(after, rest, name, AsTableName(realms[0]), name);
      assert forall i :: 1 <= i < |realms| ==> realms[i] == rest[i - 1];
    }
  }

  /** Removing from some realms changes no key of the document but their tables. */
  lemma {:induction false} RemoveFromRealmsOthers(doc: Document, realms: seq<Realm>, name: string)
    requires RemoveFromRealms(doc, realms, name).Ok?
    ensures forall k :: k !in TableNames(realms) ==> Lookup(RemoveFromRealms(doc, realms, name).value, k) == Lookup(doc, k)
    decreases |realms|
  {
    if realms != [] {
      RemoveFromRealmMeaning(doc, realms[0], name);
      var after := RemoveFromRealm(doc, realms[0], name).value.0;
      var rest := realms[1..];
      RemoveFromRealmsOthers(after, rest, name);
      assert forall k :: k !in TableNames(realms) ==> k !in TableNames(rest) && k != AsTableName(realms[0]) by {
        assert forall i :: 1 <= i < |realms| ==> realms[i] == rest[i - 1];
        assert AsTableName(realms[0]) in TableNames(realms);
        forall k | k in TableNames(rest) ensures k in TableNames(realms) {
          var i :| 0 <= i < |rest| && k == AsTableName(rest[i]);
          assert rest[i] == realms[i + 1];
        }
      }
    }
  }

  /** Removals keep a table lacking an alias (whichever alias they remove). */
  lemma RemoveFromRealmPreservesLacks(doc: Document, realm: Realm, name: string, tableName: string, alias: string)
    requires RemoveFromRealm(doc, realm, name).Ok? && Lacks(doc, tableName, alias)
    ensures Lacks(RemoveFromRealm(doc, realm, name).value.0, tableName, alias)
  {
    RemoveFromRealmMeaning(doc, realm, name);
    var after := RemoveFromRealm(doc, realm, name).value.0;
    if tableName == AsTableName(realm) && Lookup(doc, tableName).Some? {
      var entries := Lookup(doc, tableName).value.entries;
      assert Lookup(after, tableName) == Some(TableItem(Remove(entries, name).0));
      if alias != name {
        assert Lookup(Remove(entries, name).0, alias) == Lookup(entries, alias);
      }
    }
  }

  lemma {:induction false} RemovePreservesLacks(doc: Document, realms: seq<Realm>, name: string, tableName: string, alias: string)
    requires RemoveFromRealms(doc, realms, name).Ok? && Lacks(doc, tableName, alias)
    ensures Lacks(RemoveFromRealms(doc, realms, name).value, tableName, alias)
    decreases |realms|
  {
    if realms != [] {
      RemoveFromRealmPreservesLacks(doc, realms[0], name, tableName, alias);
      var after := RemoveFromRealm(doc, realms[0], name).value.0;
      RemovePreservesLacks(after, realms[1..], name, tableName, alias);
    }
  }

  /** One target: its realm's table, or all three in turn. */
  function RemoveTarget(doc: Document, t: AliasTarget): Result<Document, RemoveError>
  {
    RemoveFromRealms(doc, TargetRealms(t), t.name)
  }

  /** The loop over targets, stopping at the first error. */
  function RemoveAll(doc: Document, targets: seq<AliasTarget>): Result<Document, RemoveError>
    decreases |targets|
  {
    if targets == [] then Ok(doc)
    else
      match RemoveTarget(doc, targets[0])
      case Err(e) => Err(e)
      case Ok(after) => RemoveAll(after, targets[1..])
  }

  /** `RemoveSubcommand::run` on the document: an empty target list is refused. */
  function RemoveFromDocument(doc: Document, targets: seq<AliasTarget>): (r: Result<Document, RemoveError>)
    ensures targets == [] ==> r == Err(NoTargets)
  {
    if targets == [] then Err(NoTargets) else RemoveAll(doc, targets)
  }

  /** The three dependency tables. */
  lemma AllTableNames()
    ensures TableNames(ALL_REALMS) == {"server-dependencies", "dependencies", "dev-dependencies"}
  {
    assert AsTableName(ALL_REALMS[0]) == "server-dependencies";
    assert AsTableName(ALL_REALMS[1]) == "dependencies";
    assert AsTableName(ALL_REALMS[2]) == "dev-dependencies";
  }

  /**
   * A target with a realm touches only that realm's table; one without a
   * realm leaves none of the three tables holding the alias. Keys other
   * than the dependency tables are never touched.
   */
  lemma RemoveTargetMeaning(doc: Document, t: AliasTarget)
    requires RemoveTarget(doc, t).Ok?
    ensures t.realm.Some? ==> Lacks(RemoveTarget(doc, t).value, AsTableName(t.realm.value), t.name)
    ensures t.realm.Some? ==> forall k :: k != AsTableName(t.realm.value) ==> Lookup(RemoveTarget(doc, t).value, k) == Lookup(doc, k)
    ensures t.realm.None? ==> forall realm: Realm :: Lacks(RemoveTarget(doc, t).value, AsTableName(realm), t.name)
    ensures forall k :: k !in {"server-dependencies", "dependencies", "dev-dependencies"} ==>
      Lookup(RemoveTarget(doc, t).value, k) == Lookup(doc, k)
    ensures KeepsEntries(doc, RemoveTarget(doc, t).value, t.name)
  {
    RemoveFromRealmsKeeps(doc, TargetRealms(t), t.name);
    RemoveFromRealmsLacks(doc, TargetRealms(t), t.name);
    RemoveFromRealmsOthers(doc, TargetRealms(t), t.name);
    AllTableNames();
    if t.realm.None? {
      forall realm: Realm ensures Lacks(RemoveTarget(doc, t).value, AsTableName(realm), t.name) {
        var i := if realm == Server then 0 else if realm == Shared then 1 else 2;
        assert TargetRealms(t)[i] == realm;
      }
    } else {
      assert TableNames(TargetRealms(t)) == {AsTableName(t.realm.value)};
    }
  }

  /**
   * A target with a realm fails exactly when that realm's item is not a
   * table, or the alias holds something other than a string.
   */
  lemma RemoveTargetErrors(doc: Document, t: AliasTarget)
    requires t.realm.Some?
    ensures var item := Lookup(doc, AsTableName(t.realm.value));
            RemoveTarget(doc, t).Err? <==>
              || (item.Some? && !item.value.TableItem?)
              || (item.Some? && item.value.TableItem? && Lookup(item.value.entries, t.name).Some?
                  && !Lookup(item.value.entries, t.name).value.Str?)
  {
    var realms := TargetRealms(t);
    assert realms == [t.realm.value] && realms[1..] == [];
    RemoveFromRealmMeaning(doc, realms[0], t.name);
    var step := RemoveFromRealm(doc, realms[0], t.name);
    if step.Ok? {
      assert RemoveFromRealms(step.value.0, realms[1..], t.name).Ok?;
    }
  }

  /** The realms of a target hold its alias no longer. */
  ghost predicate TargetGone(doc: Document, t: AliasTarget)
  {
    forall realm :: realm in TargetRealms(t) ==> Lacks(doc, AsTableName(realm), t.name)
  }

  /** A target once gone stays gone under later removals. */
  lemma LacksStaysAfterTarget(doc: Document, u: AliasTarget, tableName: string, name: string)
    requires RemoveTarget(doc, u).Ok? && Lacks(doc, tableName, name)
    ensures Lacks(RemoveTarget(doc, u).value, tableName, name)
  {
    RemovePreservesLacks(doc, TargetRealms(u), u.name, tableName, name);
  }

  lemma RemoveTargetPreservesGone(doc: Document, u: AliasTarget, t: AliasTarget)
    requires RemoveTarget(doc, u).Ok? && TargetGone(doc, t)
    ensures TargetGone(RemoveTarget(doc, u).value, t)
  {
    var after := RemoveTarget(doc, u).value;
    forall realm | realm in TargetRealms(t) ensures Lacks(after, AsTableName(realm), t.name) {
      LacksStaysAfterTarget(doc, u, AsTableName(realm), t.name);
    }
  }

  lemma {:induction false} RemoveAllPreservesGone(doc: Document, targets: seq<AliasTarget>, t: AliasTarget)
    requires RemoveAll(doc, targets).Ok? && TargetGone(doc, t)
    ensures TargetGone(RemoveAll(doc, targets).value, t)
    decreases |targets|
  {
    if targets != [] {
      RemoveTargetPreservesGone(doc, targets[0], t);
      RemoveAllPreservesGone(RemoveTarget(doc, targets[0]).value, targets[1..], t);
    }
  }

  /**
   * When every target is handled, none of them is left in the realms it
   * named, and every document key other than the three dependency tables
   * is as it was.
   */
  lemma {:induction false} RemoveAllMeaning(doc: Document, targets: seq<AliasTarget>)
    requires RemoveAll(doc, targets).Ok?
    ensures forall i :: 0 <= i < |targets| ==> TargetGone(RemoveAll(doc, targets).value, targets[i])
    ensures forall k :: k !in {"server-dependencies", "dependencies", "dev-dependencies"} ==>
      Lookup(RemoveAll(doc, targets).value, k) == Lookup(doc, k)
    decreases |targets|
  {
    RemoveAllGone(doc, targets);
    RemoveAllKeepsOthers(doc, targets);
  }

  lemma {:induction false} RemoveAllGone(doc: Document, targets: seq<AliasTarget>)
    requires RemoveAll(doc, targets).Ok?
    ensures forall i :: 0 <= i < |targets| ==> TargetGone(RemoveAll(doc, targets).value, targets[i])
    decreases |targets|
  {
    if targets != [] {
      var t := targets[0];
      var after := RemoveTarget(doc, t).value;
      var last := RemoveAll(doc, targets).value;
      assert last == RemoveAll(after, targets[1..]).value;
      GoneAfterTarget(doc, t);
      RemoveAllPreservesGone(after, targets[1..], t);
      RemoveAllGone(after, targets[1..]);
      forall i | 0 <= i < |targets| ensures TargetGone(last, targets[i]) {
        if i > 0 {
          assert targets[i] == targets[1..][i - 1];
        }
      }
    }
  }

  /** A handled target is gone from the realms it names. */
  lemma GoneAfterTarget(doc: Document, t: AliasTarget)
    requires RemoveTarget(doc, t).Ok?
    ensures TargetGone(RemoveTarget(doc, t).value, t)
  {
    var after := RemoveTarget(doc, t).value;
    RemoveFromRealmsLacks(doc, TargetRealms(t), t.name);
    forall realm | realm in TargetRealms(t) ensures Lacks(after, AsTableName(realm), t.name) {
      var i :| 0 <= i < |TargetRealms(t)| && TargetRealms(t)[i] == realm;
    }
  }

  lemma {:induction false} RemoveAllKeepsOthers(doc: Document, targets: seq<AliasTarget>)
    requires RemoveAll(doc, targets).Ok?
    ensures forall k :: k !in {"server-dependencies", "dependencies", "dev-dependencies"} ==>
      Lookup(RemoveAll(doc, targets).value, k) == Lookup(doc, k)
    decreases |targets|
  {
    if targets != [] {
      var after := RemoveTarget(doc, targets[0]).value;
      RemoveTargetMeaning(doc, targets[0]);
      RemoveAllKeepsOthers(after, targets[1..]);
    }
  }

  /** An alias that is in none of the tables is removed without error and without change. */
  lemma {:induction false} AbsentAliasChangesNothing(doc: Document, realms: seq<Realm>, name: string)
    requires forall i :: 0 <= i < |realms| ==> Lacks(doc, AsTableName(realms[i]), name)
    ensures RemoveFromRealms(doc, realms, name) == Ok(doc)
    decreases |realms|
  {
    if realms != [] {
      RemoveFromRealmMeaning(doc, realms[0], name);
      assert Lacks(doc, AsTableName(realms[0]), name);
      assert forall i :: 1 <= i < |realms| ==> realms[i] == realms[1..][i - 1];
      AbsentAliasChangesNothing(doc, realms[1..], name);
    }
  }

  /**
   * `RemoveSubcommand::run`: the targets are handled in order on the
   * document, and the file is written only when all of them were.
   */
  method RemoveDependencies(file: ManifestFile, targets: seq<AliasTarget>) returns (r: Result<(), RemoveError>)
    modifies file
    ensures r.Ok? <==> RemoveFromDocument(old(file.document), targets).Ok?
    ensures r.Ok? ==> file.document == RemoveFromDocument(old(file.document), targets).value
    ensures r.Err? ==> RemoveFromDocument(old(file.document), targets) == Err(r.error)
                       && file.document == old(file.document)
  {
    var start := file.document;
    if targets == [] {
      return Err(NoTargets);
    }
    var removed := RemoveAllFrom(start, targets);
    if removed.Err? {
      return Err(removed.error);
    }
    file.document := removed.value;
    r := Ok(());
  }

  /** The loop of `run` over the targets, on the document, stopping at the first error. */
  method RemoveAllFrom(start: Document, targets: seq<AliasTarget>) returns (r: Result<Document, RemoveError>)
    ensures r == RemoveAll(start, targets)
  {
    var doc := start;
    for i := 0 to |targets|
      invariant RemoveAll(doc, targets[i..]) == RemoveAll(start, targets)
    {
      assert targets[i..][1..] == targets[i + 1..];
      var step := RemoveTargetFrom(doc, targets[i]);
      if step.Err? {
        assert RemoveAll(doc, targets[i..]) == Err(step.error);
        return Err(step.error);
      }
      doc := step.value;
    }
    assert targets[|targets|..] == [];
    return Ok(doc);
  }

  /** The inner loop of `run` for one target: each of its realms in turn, stopping at the first error. */
  method RemoveTargetFrom(doc: Document, t: AliasTarget) returns (r: Result<Document, RemoveError>)
    ensures r == RemoveTarget(doc, t)
  {
    var realms := TargetRealms(t);
    var current := doc;
    for j := 0 to |realms|
      invariant RemoveFromRealms(current, realms[j..], t.name) == RemoveTarget(doc, t)
    {
      assert realms[j..][1..] == realms[j + 1..];
      var step := RemoveFromRealm(current, realms[j], t.name);
      if step.Err? {
        return Err(step.error);
      }
      var check := CheckRemoved(step.value.1, t.name);
      if check.Err? {
        return Err(check.error);
      }
      current := step.value.0;
    }
    assert realms[|realms|..] == [];
    return Ok(current);
  }
}
