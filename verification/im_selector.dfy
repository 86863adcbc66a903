/**
 * The messaging-app selector (src/components/IMSelector.tsx) with the state it shares through
 * the IM context (src/contexts/IMContext.tsx): the selected option, the free-text name typed
 * for "other", and whether that text input is shown. Option logos are left out.
 */
module IMSelection {
  import opened Wrappers

  /** An entry of the option table: its display name and its id. */
  datatype IMOption = IMOption(name: string, id: string)

  /** `imOptions`, in the order the drop-down lists them. */
  const Options: seq<IMOption> := [
    IMOption("Slack", "slack"),
    IMOption("Discord", "discord"),
    IMOption("Teams", "teams"),
    IMOption("Telegram", "telegram"),
    IMOption("Other", "other")
  ]

  /** The id that opens the free-text input. */
  const OtherId: string := "other"

  /** The context's `defaultIM`. */
  const DefaultIM: IMOption := IMOption("Slack", "slack")

  predicate DistinctIds(opts: seq<IMOption>) {
    forall i, j :: 0 <= i < j < |opts| ==> opts[i].id != opts[j].id
  }

  /** `opts.find(im => im.id === id)`: the first option with that id, if any. */
  function Find(opts: seq<IMOption>, id: string): (r: Option<IMOption>)
    ensures r.None? <==> forall k :: 0 <= k < |opts| ==> opts[k].id != id
    ensures r.Some? ==>
      exists k :: 0 <= k < |opts| && opts[k] == r.value && forall j :: 0 <= j < k ==> opts[j].id != id
    ensures r.Some? ==> r.value.id == id
  {
    if opts == [] then None
    else if opts[0].id == id then Some(opts[0])
    else
      var rest := Find(opts[1..], id);
      assert forall k :: 1 <= k < |opts| ==> opts[k] == opts[1..][k - 1];
      rest
  }

  /** With distinct ids, looking up an option's id finds that very option. */
  lemma FindDistinct(opts: seq<IMOption>, k: nat)
    requires DistinctIds(opts) && k < |opts|
    ensures Find(opts, opts[k].id) == Some(opts[k])
  {
  }

  /** The table holds five options with distinct ids, in the order the drop-down shows. */
  lemma OptionTable()
    ensures |Options| == 5 && DistinctIds(Options)
    ensures Options[0].id == "slack" && Options[1].id == "discord" && Options[2].id == "teams"
    ensures Options[3].id == "telegram" && Options[4].id == OtherId
  {
  }

  /** Looking up any option's id finds exactly that option. */
  lemma FindOption(k: nat)
    requires k < |Options|
    ensures Find(Options, Options[k].id) == Some(Options[k])
  {
    OptionTable();
    FindDistinct(Options, k);
  }

  /** The ids the drop-down knows. */
  predicate IsKnownId(id: string) {
    exists k :: 0 <= k < |Options| && Options[k].id == id
  }

  /** The selector's state: the context's `selectedIM` and `otherIMName`, and `showOtherInput`. */
  class Selector {
    var selectedIM: IMOption
    var otherIMName: string
    var showOtherInput: bool

    /** The context provider's initial state and the component's own. */
    constructor ()
      ensures selectedIM == DefaultIM && otherIMName == "" && !showOtherInput
    {
      selectedIM, otherIMName, showOtherInput := DefaultIM, "", false;
    }

    /**
     * The mount effect: the selection is replaced by the table entry with the same id, when
     * there is one; its id never changes.
     */
    method Mount()
      modifies this`selectedIM
      ensures selectedIM.id == old(selectedIM.id)
      ensures IsKnownId(old(selectedIM.id)) ==>
        selectedIM in Options && Find(Options, selectedIM.id) == Some(selectedIM)
      ensures !IsKnownId(old(selectedIM.id)) ==> selectedIM == old(selectedIM)
    {
      var initial := Find(Options, selectedIM.id);
      if initial.Some? {
        selectedIM := initial.value;
      }
    }

    /**
     * `handleIMChange`: a known id selects its option, shows the free-text input exactly for
     * "other", and clears the free-text name for any other choice; an unknown id changes nothing.
     */
    method HandleIMChange(value: string)
      modifies this
      ensures !IsKnownId(value) ==>
        selectedIM == old(selectedIM) && showOtherInput == old(showOtherInput) &&
        otherIMName == old(otherIMName)
      ensures IsKnownId(value) ==>
        selectedIM in Options && selectedIM.id == value &&
        showOtherInput == (value == OtherId) &&
        otherIMName == (if value == OtherId then old(otherIMName) else "")
    {
      var selected := Find(Options, value);
      if selected.Some? {
        selectedIM := selected.value;
        showOtherInput := value == OtherId;
        if value != OtherId {
          otherIMName := "";
        }
      }
    }

    /** The free-text input's `onChange`: the name becomes exactly the typed text. */
    method EditOtherName(text: string)
      modifies this`otherIMName
      ensures otherIMName == text
    {
      otherIMName := text;
    }
  }

  /** Mounting from the default selection leaves the table's Slack entry selected. */
  method MountFromDefault() returns (s: Selector)
    ensures s.selectedIM == Options[0] && s.otherIMName == "" && !s.showOtherInput
  {
    s := new Selector();
    s.Mount();
    FindOption(0);
  }
}
