/**
 * The native baby-profile screen (baby-sleep-native-fixed/app/baby-profile.tsx):
 * loading the list, saving (update in place or append), deleting by id, and
 * the form's guard against a blank name. The server calls are parameters:
 * each method is given how its request settles.
 */
module BabyProfile {
  import opened Wrappers
  import opened Text
  import L = Lists

  /** A baby profile; id is absent on a profile the server has not stored yet. */
  datatype Baby = Baby(id: Option<int>, name: string, birthDate: string, sleepIssues: string,
                       currentSchedule: string, notes: string)

  const EmptyBaby := Baby(None, [], [], [], [], [])

  /** The body sent to create or update a profile; a None field is sent as null. */
  datatype BabyPayload = BabyPayload(name: string, birthDate: Option<string>, sleepIssues: Option<string>,
                                     currentSchedule: Option<string>, notes: Option<string>)

  const MsgNameRequired := "Baby name is required"
  const MsgSaved := "Baby profile saved successfully!"
  const MsgDeleted := "Baby profile deleted successfully!"
  const MsgLoadFailed := "Failed to load baby profiles"
  const MsgSaveFailed := "Failed to save baby profile"
  const MsgDeleteFailed := "Failed to delete baby profile"

  /** `s || null` */
  function OrNull(s: string): Option<string> { if s == [] then None else Some(s) }

  /** `e || fallback` for an error message. */
  function OrDefault(e: string, fallback: string): string { if e == [] then fallback else e }

  /** The payload of handleSave. */
  function Payload(b: Baby): BabyPayload {
    BabyPayload(JsTrim(b.name), OrNull(b.birthDate), OrNull(JsTrim(b.sleepIssues)),
                OrNull(JsTrim(b.currentSchedule)), OrNull(JsTrim(b.notes)))
  }

  /** The request handleSave makes: none for a blank name, otherwise the payload. */
  function SaveRequest(data: Baby): (r: Option<BabyPayload>)
    ensures r.None? <==> JsBlank(data.name)
  {
    JsBlankIff(data.name);
    if JsTrim(data.name) == [] then None else Some(Payload(data))
  }

  /** The birth date is sent as typed, and as null only when exactly empty (a blank one is sent as it is). */
  lemma PayloadBirthDateUntrimmed(b: Baby)
    ensures var p := Payload(b);
            (p.birthDate == None <==> b.birthDate == []) && (p.birthDate.Some? ==> p.birthDate.value == b.birthDate)
  {}

  /**
   * The name is sent trimmed, and every other text field is either null
   * (exactly when it is blank) or a non-empty string with nothing to trim.
   */
  lemma PayloadTextFieldsTrimmed(b: Baby)
    ensures var p := Payload(b);
            p.name == JsTrim(b.name) && JsTrim(p.name) == p.name
            && (p.sleepIssues.None? <==> JsTrim(b.sleepIssues) == [])
            && (p.sleepIssues.Some? ==> p.sleepIssues.value != [] && JsTrim(p.sleepIssues.value) == p.sleepIssues.value)
            && (p.currentSchedule.None? <==> JsTrim(b.currentSchedule) == [])
            && (p.currentSchedule.Some? ==> p.currentSchedule.value != [] && JsTrim(p.currentSchedule.value) == p.currentSchedule.value)
            && (p.notes.None? <==> JsTrim(b.notes) == [])
            && (p.notes.Some? ==> p.notes.value != [] && JsTrim(p.notes.value) == p.notes.value)
  {
    TrimIdempotent(b.sleepIssues, IsJsSpace);
    TrimIdempotent(b.currentSchedule, IsJsSpace);
    TrimIdempotent(b.notes, IsJsSpace);
    TrimIdempotent(b.name, IsJsSpace);
  }

  function HasId(k: int): Baby -> bool { (b: Baby) => b.id == Some(k) }

  function NotId(k: int): Baby -> bool { (b: Baby) => b.id != Some(k) }

  /** babyId is truthy: present and not 0. */
  predicate IsUpdate(babyId: Option<int>) { babyId.Some? && babyId.value != 0 }

  /** BabyForm.handleSubmit: onSave receives the form only when its name is not blank. */
  function Submit(form: Baby): (saved: Option<Baby>)
    ensures saved.Some? ==> saved.value == form && JsTrim(saved.value.name) != []
    ensures saved.None? <==> JsTrim(form.name) == []
  {
    if JsTrim(form.name) == [] then None else Some(form)
  }

  /** What getBabyProfiles settles with: an array, some other value, or an error message. */
  datatype LoadReply = ArrayOf(items: seq<Baby>) | NotArray | LoadFailed(message: string)

  /** How a create, update or delete request settles. */
  datatype SaveReply = Saved(stored: Baby) | SaveFailed(message: string)

  datatype DeleteReply = Deleted | DeleteFailed(message: string)

  class Screen {
    var babies: seq<Baby>
    var editingBaby: Option<int>
    var newBaby: Baby
    var isLoading: bool
    var isSaving: bool
    var error: string
    var success: string

    constructor()
      ensures babies == [] && editingBaby == None && newBaby == EmptyBaby
      ensures isLoading && !isSaving && error == [] && success == []
    {
      babies := [];
      editingBaby := None;
      newBaby := EmptyBaby;
      isLoading := true;
      isSaving := false;
      error := [];
      success := [];
    }

    /** loadBabyProfiles: an array replaces the list, anything else empties it; a failure only sets the error. */
    method Load(reply: LoadReply)
      modifies this
      ensures reply.ArrayOf? ==> babies == reply.items && error == old(error)
      ensures reply.NotArray? ==> babies == [] && error == old(error)
      ensures reply.LoadFailed? ==> babies == old(babies) && error == OrDefault(reply.message, MsgLoadFailed)
      ensures !isLoading && isSaving == old(isSaving) && success == old(success)
      ensures editingBaby == old(editingBaby) && newBaby == old(newBaby)
    {
      isLoading := true;
      match reply {
        case ArrayOf(items) => babies := items;
        case NotArray => babies := [];
        case LoadFailed(msg) => error := OrDefault(msg, MsgLoadFailed);
      }
      isLoading := false;
    }

    /**
     * handleSave(babyData, babyId): a blank name only sets the error and
     * sends nothing; otherwise the payload goes out and the reply is applied.
     */
    method Save(data: Baby, babyId: Option<int>, reply: SaveReply) returns (sent: Option<BabyPayload>)
      modifies this
      ensures sent == SaveRequest(data)
      ensures sent.None? ==>
                error == MsgNameRequired && babies == old(babies)
                && editingBaby == old(editingBaby) && newBaby == old(newBaby)
                && success == old(success) && isSaving == old(isSaving)
      ensures sent.Some? ==> !isSaving && Applied(old(babies), old(editingBaby), old(newBaby), babyId, reply)
      ensures isLoading == old(isLoading)
    {
      sent := SaveRequest(data);
      if sent.None? {
        error := MsgNameRequired;
        return;
      }
      ApplyRequest(babyId, reply);
    }

    /** The part of handleSave after the name check: clear the messages, then settle the request. */
    method ApplyRequest(babyId: Option<int>, reply: SaveReply)
      modifies this
      ensures !isSaving && Applied(old(babies), old(editingBaby), old(newBaby), babyId, reply)
      ensures isLoading == old(isLoading)
    {
      error := [];
      success := [];
      isSaving := true;
      ApplySaveReply(babyId, reply);
    }

    /**
     * The state after a save request settled: an update replaces the entries
     * with that id by the stored profile and ends the editing; a create
     * appends it and empties the new-baby form; a failure only sets the error.
     */
    ghost predicate Applied(babies0: seq<Baby>, editing0: Option<int>, new0: Baby, babyId: Option<int>, reply: SaveReply)
      reads this
    {
      match reply
      case SaveFailed(msg) =>
        error == OrDefault(msg, MsgSaveFailed) && success == []
        && babies == babies0 && editingBaby == editing0 && newBaby == new0
      case Saved(stored) =>
        error == [] && success == MsgSaved
        && if IsUpdate(babyId) then
             babies == L.ReplaceWhere(babies0, HasId(babyId.value), stored)
             && editingBaby == None && newBaby == new0
           else
             babies == babies0 + [stored] && newBaby == EmptyBaby && editingBaby == editing0
    }

    /** The try/catch/finally of handleSave, entered with error and success cleared. */
    method ApplySaveReply(babyId: Option<int>, reply: SaveReply)
      requires error == [] && success == []
      modifies this
      ensures Applied(old(babies), old(editingBaby), old(newBaby), babyId, reply)
      ensures !isSaving && isLoading == old(isLoading)
    {
      match reply {
        case Saved(stored) =>
          if IsUpdate(babyId) {
            babies := L.ReplaceWhere(babies, HasId(babyId.value), stored);
            editingBaby := None;
          } else {
            babies := babies + [stored];
            newBaby := EmptyBaby;
          }
          success := MsgSaved;
        case SaveFailed(msg) =>
          error := OrDefault(msg, MsgSaveFailed);
      }
      isSaving := false;
    }

    /** handleDelete: once confirmed, a successful delete removes every entry with that id. */
    method Delete(babyId: int, confirmed: bool, reply: DeleteReply)
      modifies this
      ensures !confirmed ==> babies == old(babies) && error == old(error) && success == old(success)
      ensures confirmed && reply.Deleted? ==> babies == L.Keep(old(babies), NotId(babyId)) && error == [] && success == MsgDeleted
      ensures confirmed && reply.DeleteFailed? ==>
                babies == old(babies) && error == OrDefault(reply.message, MsgDeleteFailed) && success == old(success)
      ensures !confirmed ==> isSaving == old(isSaving)
      ensures confirmed ==> !isSaving
      ensures editingBaby == old(editingBaby) && newBaby == old(newBaby) && isLoading == old(isLoading)
    {
      if !confirmed {
        return;
      }
      error := [];
      isSaving := true;
      match reply {
        case Deleted =>
          babies := L.Keep(babies, NotId(babyId));
          success := MsgDeleted;
        case DeleteFailed(msg) =>
          error := OrDefault(msg, MsgDeleteFailed);
      }
      isSaving := false;
    }
  }

  /** After a delete, no profile with that id is left. */
  lemma DeleteLeavesNoneWithId(s: seq<Baby>, k: int)
    ensures forall i :: 0 <= i < |L.Keep(s, NotId(k))| ==> L.Keep(s, NotId(k))[i].id != Some(k)
  {}

  /** A delete keeps every other profile, as often as it occurred, in order. */
  lemma DeleteKeepsOthers(s: seq<Baby>, k: int, b: Baby)
    requires b.id != Some(k)
    ensures multiset(L.Keep(s, NotId(k)))[b] == multiset(s)[b]
  {
    L.KeepCounts(s, NotId(k), b);
  }

  /** Updating a profile and then deleting its id leaves what deleting it straight away leaves. */
  lemma {:induction false} UpdateThenDelete(s: seq<Baby>, k: int, stored: Baby)
    requires stored.id == Some(k)
    ensures L.Keep(L.ReplaceWhere(s, HasId(k), stored), NotId(k)) == L.Keep(s, NotId(k))
    decreases |s|
  {
    if s != [] {
      var r := L.ReplaceWhere(s, HasId(k), stored);
      assert r[1..] == L.ReplaceWhere(s[1..], HasId(k), stored);
      UpdateThenDelete(s[1..], k, stored);
    }
  }

  /** An update that matches no id leaves the list as it was. */
  lemma UpdateUnknownIdKeeps(s: seq<Baby>, k: int, stored: Baby)
    requires forall i :: 0 <= i < |s| ==> s[i].id != Some(k)
    ensures L.ReplaceWhere(s, HasId(k), stored) == s
  {}

  /** Deleting the same id twice is deleting it once. */
  lemma DeleteIdempotent(s: seq<Baby>, k: int)
    ensures L.Keep(L.Keep(s, NotId(k)), NotId(k)) == L.Keep(s, NotId(k))
  {
    L.KeepIdempotent(s, NotId(k));
  }
}
