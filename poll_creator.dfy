/**
 * The poll editor of the post composer: two to four answer options, a duration
 * chosen from a fixed list, and a save that keeps only the non-blank options.
 */
module PollCreator {
  import opened Wrappers
  import opened Text
  import opened Seqs

  datatype PollData = PollData(options: seq<string>, endsInDays: int)

  const MinOptions := 2
  const MaxOptions := 4

  /** The duration chips, in days. */
  const DurationOptions: seq<int> := [1, 2, 3, 5, 7]

  /** The state every editor operation keeps once it holds. */
  predicate WellFormed(options: seq<string>, endsInDays: int) {
    MinOptions <= |options| <= MaxOptions && endsInDays in DurationOptions
  }

  /** `initialPoll?.options || ['', '']`: an absent poll gives two empty options; an array is always kept. */
  function InitialOptions(initialPoll: Option<PollData>): (r: seq<string>)
    ensures initialPoll.None? ==> r == ["", ""]
    ensures initialPoll.Some? ==> r == initialPoll.value.options
  {
    match initialPoll
    case None => ["", ""]
    case Some(p) => p.options
  }

  /** `initialPoll?.endsInDays || 1`: an absent poll and a zero duration both give one day. */
  function InitialDuration(initialPoll: Option<PollData>): (r: int)
    ensures initialPoll.None? ==> r == 1
    ensures initialPoll.Some? && initialPoll.value.endsInDays != 0 ==> r == initialPoll.value.endsInDays
    ensures r != 0
  {
    match initialPoll
    case None => 1
    case Some(p) => if p.endsInDays == 0 then 1 else p.endsInDays
  }

  /** A fresh poll, and a poll reopened from a well-formed one, start well formed. */
  lemma InitialWellFormed(initialPoll: Option<PollData>)
    requires initialPoll.Some? ==> WellFormed(initialPoll.value.options, initialPoll.value.endsInDays)
    ensures WellFormed(InitialOptions(initialPoll), InitialDuration(initialPoll))
  {
  }

  /** `options.filter((_, i) => i !== index)`: every position except `index`. */
  function DropIndex(s: seq<string>, index: int): (r: seq<string>)
    ensures 0 <= index < |s| ==> r == s[..index] + s[index + 1..]
    ensures !(0 <= index < |s|) ==> r == s
    decreases |s|
  {
    if s == [] then []
    else
      var rest := DropIndex(s[1..], index - 1);
      assert s == [s[0]] + s[1..];
      if index == 0 then rest
      else
        assert 0 < index < |s| ==>
          [s[0]] + (s[1..][..index - 1] + s[1..][index..]) == s[..index] + s[index + 1..];
        [s[0]] + rest
  }

  /** `addOption`: one empty option more while there are fewer than four. */
  function AddedOption(options: seq<string>): (r: seq<string>)
    ensures |options| < MaxOptions ==> r == options + [""]
    ensures |options| >= MaxOptions ==> r == options
    ensures MinOptions <= |options| <= MaxOptions ==> MinOptions <= |r| <= MaxOptions
  {
    if |options| < MaxOptions then options + [""] else options
  }

  /** `removeOption`: drop the option at `index` while there are more than two. */
  function RemovedOption(options: seq<string>, index: int): (r: seq<string>)
    ensures |options| > MinOptions && 0 <= index < |options| ==> r == options[..index] + options[index + 1..]
    ensures |options| <= MinOptions || !(0 <= index < |options|) ==> r == options
    ensures MinOptions <= |options| <= MaxOptions ==> MinOptions <= |r| <= MaxOptions
  {
    if |options| > MinOptions then DropIndex(options, index) else options
  }

  /** `options.filter((o) => o.trim() !== '')` */
  function FilledOptions(options: seq<string>): (r: seq<string>)
    ensures IsSubsequence(r, options)
    ensures forall o :: o in r <==> o in options && Trim(o) != []
  {
    Filter(options, (o: string) => Trim(o) != [])
  }

  /** Each non-blank option survives the save as many times as it was entered. */
  lemma FilledKeepsCounts(options: seq<string>, o: string)
    requires !AllWhitespace(o)
    ensures multiset(FilledOptions(options))[o] == multiset(options)[o]
  {
    BlankIffAllWhitespace(o);
    FilterCounts(options, (o: string) => Trim(o) != [], o);
  }

  class PollDraft {
    var options: seq<string>
    var endsInDays: int

    predicate Valid()
      reads this
    {
      WellFormed(options, endsInDays)
    }

    /** The initial state taken from `initialPoll`. */
    constructor (initialPoll: Option<PollData>)
      ensures options == InitialOptions(initialPoll) && endsInDays == InitialDuration(initialPoll)
      ensures initialPoll.None? ==> options == ["", ""] && endsInDays == 1 && Valid()
    {
      options := InitialOptions(initialPoll);
      endsInDays := InitialDuration(initialPoll);
    }

    /** `updateOption`: a copy of the list with one position replaced (the rows pass their own index). */
    method UpdateOption(index: int, value: string)
      requires 0 <= index < |options|
      modifies this
      ensures |options| == |old(options)| && options[index] == value
      ensures forall i :: 0 <= i < |options| && i != index ==> options[i] == old(options)[i]
      ensures endsInDays == old(endsInDays)
      ensures old(Valid()) ==> Valid()
    {
      var copy := options;
      copy := copy[index := value];
      options := copy;
    }

    method AddOption()
      modifies this
      ensures options == AddedOption(old(options)) && endsInDays == old(endsInDays)
      ensures old(Valid()) ==> Valid()
    {
      if |options| < MaxOptions {
        options := options + [""];
      }
    }

    method RemoveOption(index: int)
      modifies this
      ensures options == RemovedOption(old(options), index) && endsInDays == old(endsInDays)
      ensures old(Valid()) ==> Valid()
    {
      if |options| > MinOptions {
        options := DropIndex(options, index);
      }
    }

    /** A duration chip. */
    method SelectDuration(days: int)
      requires days in DurationOptions
      modifies this
      ensures endsInDays == days && options == old(options)
      ensures old(MinOptions <= |options| <= MaxOptions) ==> Valid()
    {
      endsInDays := days;
    }

    /** `canSave`: at least two options are non-blank. */
    predicate CanSave()
      reads this
    {
      |FilledOptions(options)| >= MinOptions
    }

    /** `handleSave`: the non-blank options and the duration, only when there are two of them. */
    method Save() returns (saved: Option<PollData>)
      ensures saved.Some? <==> CanSave()
      ensures saved.Some? ==> saved.value.options == FilledOptions(options) &&
                              |saved.value.options| >= MinOptions &&
                              saved.value.endsInDays == endsInDays
    {
      var filled := FilledOptions(options);
      if |filled| >= MinOptions {
        return Some(PollData(filled, endsInDays));
      }
      return None;
    }
  }
}
