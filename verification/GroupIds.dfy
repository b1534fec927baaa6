/**
 The names of MLS groups. The MLS layer knows a group by its raw id, any list of parts between
 slashes; the server works with what it parses from that, and writes ids of its own in one form only.
 */
module GroupIds {
  import opened Outcomes
  import opened Certificates

  datatype GroupId = GlobalGroup | DeviceGroup(agent: SpkiHash) | DeviceMetaGroup(agent: SpkiHash)

  /** A key hash in hexadecimal digits, in one of its spellings, of which 0 is the lower-case one; or
      any other text. */
  datatype Part = Hex(hash: SpkiHash, spelling: nat) | Text(text: string)

  type RawId = seq<Part>

  function ToRaw(id: GroupId): RawId {
    match id
    case GlobalGroup => [Text("global")]
    case DeviceGroup(agent) => [Text("device"), Hex(agent, 0)]
    case DeviceMetaGroup(agent) => [Text("meta"), Hex(agent, 0)]
  }

  /** Looks at the first part, and for the groups of an agent at the second one; the rest is ignored. */
  function Parse(raw: RawId): Option<GroupId> {
    if raw == [] then None
    else if raw[0] == Text("global") then Some(GlobalGroup)
    else if |raw| < 2 || !raw[1].Hex? then None
    else if raw[0] == Text("device") then Some(DeviceGroup(raw[1].hash))
    else if raw[0] == Text("meta") then Some(DeviceMetaGroup(raw[1].hash))
    else None
  }

  /** The id in the server's own form. */
  predicate Canonical(raw: RawId) {
    Parse(raw).Some? && ToRaw(Parse(raw).value) == raw
  }

  /** Where the server looks when it goes by the parsed id. */
  function Target(raw: RawId): RawId {
    if Parse(raw).Some? then ToRaw(Parse(raw).value) else raw
  }

  /** Parsing undoes writing; the canonical ids are exactly those the server writes, and every id that
      parses leads to one of them, the same for all that parse alike. */
  lemma ParseUndoesWriting(id: GroupId, raw: RawId)
    ensures Parse(ToRaw(id)) == Some(id) && Canonical(ToRaw(id))
    ensures Canonical(raw) ==> exists x :: raw == ToRaw(x)
    ensures Parse(raw) == Some(id) <==> Parse(raw).Some? && Target(raw) == ToRaw(id)
    ensures Canonical(raw) <==> Parse(raw).Some? && Target(raw) == raw
  {
  }

  /** Which raw ids name which group: "global" and anything after it, "device" or "meta" with a hash and
      anything after that. */
  lemma NamesExactly(raw: RawId, agent: SpkiHash)
    ensures Parse(raw) == Some(GlobalGroup) <==> |raw| > 0 && raw[0] == Text("global")
    ensures Parse(raw) == Some(DeviceGroup(agent)) <==>
      |raw| > 1 && raw[0] == Text("device") && raw[1].Hex? && raw[1].hash == agent
    ensures Parse(raw) == Some(DeviceMetaGroup(agent)) <==>
      |raw| > 1 && raw[0] == Text("meta") && raw[1].Hex? && raw[1].hash == agent
  {
  }

  /** Every id of the server's has others that parse alike: with anything behind it, or with its digits in
      another case. */
  lemma OtherSpellings(id: GroupId, behind: seq<Part>, spelling: nat)
    ensures Parse(ToRaw(id) + behind) == Some(id)
    ensures Canonical(ToRaw(id) + behind) <==> behind == []
    ensures !id.GlobalGroup? ==>
      var raw := [ToRaw(id)[0], Hex(id.agent, spelling)];
      Parse(raw) == Some(id) && (Canonical(raw) <==> spelling == 0)
  {
    var raw := ToRaw(id) + behind;
    assert raw[0] == ToRaw(id)[0];
    if !id.GlobalGroup? {
      assert raw[1] == ToRaw(id)[1];
    }
    if behind != [] {
      assert |raw| > |ToRaw(id)|;
    } else {
      assert raw == ToRaw(id);
    }
  }
}
