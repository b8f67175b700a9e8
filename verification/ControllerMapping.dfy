/** The editor for controller mappings: both maps edited in place, the mapping text read and written. */
module ControllerMapping {
  import opened Wrappers
  import opened MappingSpec
  import opened MappingText

  lemma TailLast(fields: seq<string>, last: string)
    ensures Tail(fields + [last]) == Tail(fields) + "," + last
  {
    assert (fields + [last])[..|fields|] == fields;
  }

  lemma PieceAbsorbed(m: Maps, pieces: seq<string>, i: nat)
    requires 2 <= i < |pieces|
    ensures var before, item := Absorbed(m, ItemsOf(pieces[2..i])), ItemsOfPiece(pieces[i]);
            Absorbed(m, ItemsOf(pieces[2..i + 1])) == if item == [] then before else Absorb(before, item[0])
  {
    assert pieces[2..i + 1][..i - 2] == pieces[2..i];
    var items := ItemsOf(pieces[2..i + 1]);
    if ItemsOfPiece(pieces[i]) == [] {
      assert items == ItemsOf(pieces[2..i]);
    } else {
      assert items[..|items| - 1] == ItemsOf(pieces[2..i]);
    }
  }

  lemma OneMoreOwned(inverse: Inverse, list: seq<string>, j: nat, key: string)
    requires j < |list|
    ensures AllOwnedBy(inverse, list[..j + 1], key) == AllOwnedBy(inverse, list[..j], key)[list[j] := key]
  {
    assert list[..j + 1] == list[..j] + [list[j]];
  }

  lemma OneMoreKey(f: Forward, order: seq<string>, key: string)
    requires NoRepeats(order) && key !in order && key in f
    ensures NoRepeats(order + [key])
    ensures Fields(f, order + [key]) == Fields(f, order) + KeyFields(key, f[key])
  {
    assert (order + [key])[..|order|] == order;
  }

  method AppendKey(kind: string, f: Forward, start: string, key: string, ghost fields: seq<string>) returns (text: string)
    requires key in f && start == kind + Tail(fields)
    ensures text == kind + Tail(fields + KeyFields(key, f[key]))
  {
    text := start;
    var list := f[key];
    var j := 0;
    assert fields + [] == fields;
    while j < |list|
      invariant j <= |list|
      invariant text == kind + Tail(fields + KeyFields(key, list[..j]))
    {
      text := text + "," + (key + ":" + list[j]);
      assert list[..j + 1][..j] == list[..j];
      TailLast(fields + KeyFields(key, list[..j]), Field(key, list[j]));
      assert fields + KeyFields(key, list[..j + 1]) == fields + KeyFields(key, list[..j]) + [Field(key, list[j])];
      j := j + 1;
    }
    assert list[..j] == list;
  }

  method FirstKey(keys: set<string>) returns (first: string)
    requires keys != {}
    ensures first in keys && forall k :: k in keys ==> k == first || Before(first, k)
  {
    first :| first in keys;
    var rest := keys - {first};
    while rest != {}
      invariant first in keys && rest <= keys
      invariant forall k :: k in keys && k !in rest ==> k == first || Before(first, k)
      decreases rest
    {
      var k :| k in rest;
      rest := rest - {k};
      BeforeIsTotal(k, first);
      if Before(k, first) {
        forall j | j in keys && j !in rest && j != first && j != k
          ensures Before(k, j)
        {
          BeforeIsTransitive(k, first, j);
        }
        first := k;
      }
    }
  }

  /** The keys written so far come before those still to be written. */
  ghost predicate Halfway(f: Forward, order: seq<string>, keys: set<string>) {
    && (forall k :: k in f <==> k in keys || k in order)
    && Ascending(order) && (forall j, k :: j in order && k in keys ==> Before(j, k))
  }

  lemma OneKeyFurther(f: Forward, order: seq<string>, keys: set<string>, key: string)
    requires Halfway(f, order, keys) && key in keys && forall k :: k in keys ==> k == key || Before(key, k)
    ensures Halfway(f, order + [key], keys - {key})
    ensures Fields(f, order + [key]) == Fields(f, order) + KeyFields(key, f[key])
  {
    AscendingAppend(order, key);
    AscendingNoRepeats(order);
    BeforeIsTotal(key, key);
    OneMoreKey(f, order, key);
  }

  /** The loops over the keys and their inputs. */
  method Print(kind: string, f: Forward) returns (text: string)
    ensures PrintedInOrder(text, kind, f)
  {
    text := kind;
    ghost var order := [];
    var keys := f.Keys;
    while keys != {}
      invariant Halfway(f, order, keys)
      invariant text == Printed(kind, f, order)
      decreases keys
    {
      var key := FirstKey(keys);
      text := AppendKey(kind, f, text, key, Fields(f, order));
      OneKeyFurther(f, order, keys, key);
      keys, order := keys - {key}, order + [key];
    }
    AscendingNoRepeats(order);
  }

  datatype Controller = Controller(id: int, vidPid: string, kind: string, steamVirtual: bool, mapping: string)

  /** The type a text gives, or the one the controller reports when the text leaves it open. */
  function KindOf(kind: string, reported: string): string {
    if kind != "*" then kind else if reported != "" then reported else "Unidentified Controller"
  }

  method ReadKind(piece: string, reported: string) returns (kind: string)
    ensures kind == KindOf(piece, reported)
  {
    kind := piece;
    if kind == "*" {
      kind := reported;
      if kind == "" {
        kind := "Unidentified Controller";
      }
    }
  }

  /** The controller whose mapping is being edited. */
  datatype Target = Target(controller: Option<Controller>, deviceId: int, guid: string, vidPid: string, kind: string)

  const NO_TARGET: Target := Target(None, -1, "", "", "")

  class MappingEditor {
    var forward: Forward
    var inverse: Inverse
    var applied: Forward
    var altered: bool
    var inProgress: bool
    var resetRequested: bool
    var target: Target
    var defaultMapping: bool

    // the first text seen of each guid, saved mappings, and guids that wait for a saved mapping
    var originals: map<string, string>
    var saved: map<string, string>
    var guidsToUpdate: map<string, seq<string>>

    function Current(): Session
      reads this
    {
      Session(Maps(forward, inverse), applied, altered)
    }

    /** Nothing is kept from an earlier session. */
    predicate Idle()
      reads this
    {
      Current() == Session(NO_MAPS, map[], false) && !inProgress && target == NO_TARGET && !defaultMapping
    }

    constructor ()
      ensures Idle() && !resetRequested && originals == map[] && saved == map[] && guidsToUpdate == map[]
    {
      forward, inverse, applied := map[], map[], map[];
      altered, inProgress, resetRequested, defaultMapping := false, false, false, false;
      target := NO_TARGET;
      originals, saved, guidsToUpdate := map[], map[], map[];
    }

    /** Binds a physical input to a console button. */
    method UpdateButton(code: int, physical: string, newIndex: nat)
      modifies this`forward, this`inverse, this`altered
      ensures Current() == AfterPress(old(Current()), Press(code, physical, newIndex))
    {
      var button := ButtonName(code);
      var oldMapping := if physical in inverse then inverse[physical] else "";
      if button == oldMapping {
        return;
      }
      if oldMapping != "" {
        var oldButtons := ListAt(forward, oldMapping);
        if |oldButtons| > 1 {
          forward := forward[oldMapping := RemoveOne(oldButtons, physical)];
        } else {
          forward := forward - {oldMapping};
        }
      }
      var buttons := ListAt(forward, button);
      if |buttons| > newIndex {
        inverse := inverse[buttons[newIndex] := ""];
        buttons := buttons[..newIndex] + buttons[newIndex + 1..];
      }
      if newIndex == 0 {
        buttons := [physical] + buttons;
      } else {
        buttons := buttons + [physical];
      }
      forward := forward[button := buttons];
      inverse := inverse[physical := button];
      altered := forward != applied;
    }

    method Quit()
      modifies this
      ensures Idle() && !resetRequested
      ensures originals == old(originals) && saved == old(saved) && guidsToUpdate == old(guidsToUpdate)
    {
      resetRequested := false;
      defaultMapping, altered := false, false;
      target := NO_TARGET;
      forward, applied, inverse := map[], map[], map[];
      inProgress := false;
    }

    /** Puts one item into the maps. */
    method AbsorbItem(key: string, inputs: seq<string>)
      modifies this`forward, this`inverse
      ensures Maps(forward, inverse) == Absorb(old(Maps(forward, inverse)), Item(key, inputs))
    {
      var list := inputs;
      if key in forward {
        list := forward[key] + list;
      }
      assert list == ListAt(forward, key) + inputs;
      forward := forward[key := list];
      if !IsMeta(key) {
        OwnAll(list, key);
      }
    }

    method OwnAll(list: seq<string>, key: string)
      modifies this`inverse
      ensures inverse == AllOwnedBy(old(inverse), list, key)
    {
      for j := 0 to |list|
        invariant inverse == AllOwnedBy(old(inverse), list[..j], key)
      {
        OneMoreOwned(old(inverse), list, j, key);
        inverse := inverse[list[j] := key];
      }
      assert list[..|list|] == list;
    }

    /** Starts a session with a controller, unless the game controllers are not ready, a session is running, or the
        controller's text is too short.  Controllers that Steam emulates are refused unless a reset was asked
        for.  The first text of a controller is remembered for good. */
    method Begin(device: Controller, ready: bool)
      modifies this
      ensures !ready || old(inProgress) ==> unchanged(this)
      ensures ready && !old(inProgress) && device.steamVirtual && !old(resetRequested) ==> Idle()
      ensures ready && !old(inProgress) && !(device.steamVirtual && !old(resetRequested)) ==>
                if |Split(device.mapping, ',')| < 2 then
                  && Current() == old(Current()) && !inProgress && originals == old(originals)
                  && target == old(target).(controller := None, deviceId := -1)
                else
                  && Began(device, old(Current()), old(originals), old(defaultMapping))
                  && (Split(device.mapping, ',')[1] == "*" ==>
                       target.kind == if device.kind == "" then "Unidentified Controller" else device.kind)
      ensures saved == old(saved) && guidsToUpdate == old(guidsToUpdate)
      ensures forall g :: g in old(originals) ==> g in originals && originals[g] == old(originals)[g]
    {
      if !ready || inProgress {
        return;
      }
      target := target.(controller := Some(device));
      if device.steamVirtual && !resetRequested {
        Quit();
        return;
      }
      target := target.(deviceId := device.id);
      var pieces := Split(device.mapping, ',');
      if device.mapping == "" || |pieces| < 2 {
        target := target.(controller := None, deviceId := -1);
        return;
      }
      BeginWith(device, pieces);
    }

    /** A session with the device has begun: guid, type and maps are those of its text. */
    predicate Began(device: Controller, before: Session, originalsBefore: map<string, string>, defaultBefore: bool)
      reads this
    {
      var pieces := Split(device.mapping, ',');
      && |pieces| >= 2 && inProgress
      && var maps := Absorbed(before.maps, ItemsOf(pieces[2..]));
      && Current() == Session(maps, maps.forward, before.altered)
      && target == Target(Some(device), device.id, pieces[0], device.vidPid, KindOf(pieces[1], device.kind))
      && originals == (if pieces[0] in originalsBefore then originalsBefore
                       else originalsBefore[pieces[0] := device.mapping])
      && defaultMapping == (defaultBefore || pieces[0] !in originalsBefore)
    }

    method BeginWith(device: Controller, pieces: seq<string>)
      requires pieces == Split(device.mapping, ',') && |pieces| >= 2
      requires target.controller == Some(device) && target.deviceId == device.id
      modifies `forward, `inverse, `applied, `inProgress, `target, `originals, `defaultMapping
      ensures Began(device, old(Current()), old(originals), old(defaultMapping))
    {
      var guid := pieces[0];
      if guid !in originals {
        defaultMapping := true;
        originals := originals[guid := device.mapping];
      }
      var kind := ReadKind(pieces[1], device.kind);
      target := target.(guid := guid, vidPid := device.vidPid, kind := kind);
      AbsorbPieces(pieces);
      applied := forward;
      inProgress := true;
    }

    method AbsorbPiece(piece: string)
      modifies this`forward, this`inverse
      ensures var before, item := old(Maps(forward, inverse)), ItemsOfPiece(piece);
              Maps(forward, inverse) == if item == [] then before else Absorb(before, item[0])
    {
      var parts := Split(piece, ':');
      if |parts| >= 2 {
        AbsorbItem(parts[0], parts[1..]);
      }
    }

    method AbsorbPieces(pieces: seq<string>)
      requires |pieces| >= 2
      modifies this`forward, this`inverse
      ensures Maps(forward, inverse) == Absorbed(old(Maps(forward, inverse)), ItemsOf(pieces[2..]))
    {
      var i := 2;
      while i < |pieces|
        invariant 2 <= i <= |pieces|
        invariant Maps(forward, inverse) == Absorbed(old(Maps(forward, inverse)), ItemsOf(pieces[2..i]))
      {
        PieceAbsorbed(old(Maps(forward, inverse)), pieces, i);
        AbsorbPiece(pieces[i]);
        i := i + 1;
      }
      assert pieces[2..i] == pieces[2..];
    }

    /** Saves the mapping under the controller's ids and queues its guid for an update, unless the text is the
        controller's first text, when the saved mapping is removed. */
    method Apply() returns (text: string, asOriginal: bool)
      modifies `saved, `guidsToUpdate
      ensures PrintedInOrder(text, target.kind, forward)
      ensures asOriginal == (text == if target.guid in originals then originals[target.guid] else "")
      ensures if asOriginal then saved == old(saved) - {target.vidPid} && guidsToUpdate == old(guidsToUpdate)
              else saved == old(saved)[target.vidPid := text]
                   && guidsToUpdate == old(guidsToUpdate)[target.vidPid := ListAt(old(guidsToUpdate), target.vidPid) + [target.guid]]
    {
      text := Print(target.kind, forward);
      asOriginal := text == if target.guid in originals then originals[target.guid] else "";
      if asOriginal {
        saved := saved - {target.vidPid};
      } else {
        var existing := [];
        if target.vidPid in guidsToUpdate {
          existing := existing + guidsToUpdate[target.vidPid];
        }
        existing := existing + [target.guid];
        assert existing == ListAt(guidsToUpdate, target.vidPid) + [target.guid];
        guidsToUpdate := guidsToUpdate[target.vidPid := existing];
        saved := saved[target.vidPid := text];
      }
    }
  }
}
