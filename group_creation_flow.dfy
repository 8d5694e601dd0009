/** The mobile create-group flow: a form step (group name, friend search,
    friend selection) and a confirm step that emits the trimmed name and the
    selected friend ids. The friend list is a parameter. */
module GroupCreationFlow {
  import opened JsText
  import opened JsArray

  datatype Friend = Friend(id: string, name: string)

  /** What "Create Group" hands to `onComplete`. */
  datatype GroupCreationData = GroupCreationData(name: string, memberIds: seq<string>)

  datatype Step = Form | Confirm

  /** `canNext`: the name holds a non-blank character. */
  function CanNext(name: string): (r: bool)
    ensures r <==> exists i :: 0 <= i < |name| && !IsSpace(name[i])
  {
    TrimEmpty(name);
    |Trim(name)| > 0
  }

  /** `toggle(id)`: removes the id when present, appends it otherwise. */
  function Toggle(selected: seq<string>, id: string): (r: seq<string>)
    ensures id in r <==> id !in selected
    ensures forall x :: x != id ==> (x in r <==> x in selected)
    ensures id !in selected ==> r == selected + [id]
  {
    if id in selected then Filter(selected, x => x != id) else selected + [id]
  }

  /** Selecting keeps the list free of repeated ids. */
  lemma ToggleKeepsNoDuplicates(selected: seq<string>, id: string)
    requires NoDuplicates(selected)
    ensures NoDuplicates(Toggle(selected, id))
  {
    if id in selected {
      FilterNoDuplicates(selected, x => x != id);
    } else {
      var r := selected + [id];
      forall i, j | 0 <= i < j < |r| ensures r[i] != r[j] {
        if j == |selected| {
          assert r[i] == selected[i];
        }
      }
    }
  }

  /** Selecting a friend and deselecting them again restores the list. */
  lemma ToggleTwice(selected: seq<string>, id: string)
    requires id !in selected
    ensures Toggle(Toggle(selected, id), id) == selected
  {
    var p := (x: string) => x != id;
    assert Toggle(selected, id) == selected + [id];
    FilterAppend(selected, [id], p);
    FilterKeepsAll(selected, p);
    assert Filter([id], p) == [];
    assert Filter(selected + [id], p) == selected + [];
  }

  /** Deselecting keeps the order of the remaining ids. */
  lemma ToggleRemovesOnly(before: seq<string>, id: string, after: seq<string>)
    requires id !in before && id !in after
    ensures Toggle(before + [id] + after, id) == before + after
  {
    var p := (x: string) => x != id;
    var s := before + [id] + after;
    assert s[|before|] == id;
    assert Toggle(s, id) == Filter(s, p);
    FilterAppend(before + [id], after, p);
    FilterAppend(before, [id], p);
    FilterKeepsAll(before, p);
    FilterKeepsAll(after, p);
    assert Filter([id], p) == [];
    assert Filter(before + [id], p) == before;
  }

  /** Whether a friend's name matches the search box. */
  predicate MatchesSearch(f: Friend, search: string) {
    Includes(ToLower(f.name), ToLower(Trim(search)))
  }

  /** `filteredFriends`: every friend when the trimmed search is empty,
      otherwise the friends whose lower-cased name contains the lower-cased
      trimmed search, in list order. */
  function FilteredFriends(friends: seq<Friend>, search: string): (r: seq<Friend>)
    ensures forall i :: 0 <= i < |r| ==> r[i] in friends
    ensures (forall i :: 0 <= i < |search| ==> IsSpace(search[i])) ==> r == friends
    ensures forall i :: 0 <= i < |friends| ==> (friends[i] in r <==> MatchesSearch(friends[i], search))
  {
    TrimEmpty(search);
    var q := ToLower(Trim(search));
    if q == [] then
      assert forall f :: MatchesSearch(f, search) by {
        forall f ensures MatchesSearch(f, search) { assert [] <= ToLower(f.name); }
      }
      friends
    else Filter(friends, (f: Friend) => Includes(ToLower(f.name), q))
  }

  /** The search is applied friend by friend, so it keeps the list order. */
  lemma FilteredFriendsInOrder(a: seq<Friend>, b: seq<Friend>, f: Friend, search: string)
    ensures FilteredFriends(a + b, search) == FilteredFriends(a, search) + FilteredFriends(b, search)
    ensures FilteredFriends([f], search) == if MatchesSearch(f, search) then [f] else []
  {
    var q := ToLower(Trim(search));
    if q != [] {
      FilterAppend(a, b, (g: Friend) => Includes(ToLower(g.name), q));
    }
  }

  /** A match means the search text occurs in the name, ignoring case and
      the spaces around the search. */
  lemma MatchMeansOccurs(f: Friend, search: string)
    ensures MatchesSearch(f, search) <==> exists i :: OccursAt(ToLower(f.name), ToLower(Trim(search)), i)
  {
    IncludesAt(ToLower(f.name), ToLower(Trim(search)));
  }

  /** `selectedFriends`: the friends whose id is selected, in list order. */
  function SelectedFriends(friends: seq<Friend>, selectedIds: seq<string>): (r: seq<Friend>)
    ensures forall i :: 0 <= i < |r| ==> r[i] in friends && r[i].id in selectedIds
    ensures forall i :: 0 <= i < |friends| && friends[i].id in selectedIds ==> friends[i] in r
  {
    Filter(friends, (f: Friend) => f.id in selectedIds)
  }

  /** The selection follows the friend list, not the order of tapping. */
  lemma SelectedFriendsInOrder(a: seq<Friend>, b: seq<Friend>, f: Friend, selectedIds: seq<string>)
    ensures SelectedFriends(a + b, selectedIds) == SelectedFriends(a, selectedIds) + SelectedFriends(b, selectedIds)
    ensures SelectedFriends([f], selectedIds) == if f.id in selectedIds then [f] else []
  {
    FilterAppend(a, b, (g: Friend) => g.id in selectedIds);
  }

  /** A duplicate-free friend list gives a duplicate-free selection. */
  lemma SelectedFriendsNoDuplicates(friends: seq<Friend>, selectedIds: seq<string>)
    requires NoDuplicates(friends)
    ensures NoDuplicates(SelectedFriends(friends, selectedIds))
  {
    FilterNoDuplicates(friends, (f: Friend) => f.id in selectedIds);
  }

  /** `getInitials`: the first letter of the first two words of the trimmed
      name, upper-cased. */
  function Initials(name: string): (r: string)
    ensures |r| <= 2
  {
    var parts := SplitSpaces(Trim(name));
    var first := if parts[0] != [] then [parts[0][0]] else [];
    var second := if |parts| > 1 && parts[1] != [] then [parts[1][0]] else [];
    ToUpper(first + second)
  }

  /** A blank name has no initials; any other name starts with the upper-cased
      first non-blank character. */
  lemma InitialsBlank(name: string)
    ensures Initials(name) == [] <==> forall i :: 0 <= i < |name| ==> IsSpace(name[i])
    ensures Trim(name) != [] ==> Initials(name) != [] && Initials(name)[0] == UpperChar(Trim(name)[0])
  {
    TrimEmpty(name);
    TrimShape(name);
    var t := Trim(name);
    if t != [] {
      var w := WordPrefix(t);
      assert w != [] && w[0] == t[0];
    }
  }

  predicate IsWord(w: string) {
    w != [] && forall i :: 0 <= i < |w| ==> !IsSpace(w[i])
  }

  predicate IsGap(g: string) {
    g != [] && forall i :: 0 <= i < |g| ==> IsSpace(g[i])
  }

  /** A one-word name gives its upper-cased first letter ("Maya" has initial "M"). */
  lemma InitialsOfOneWord(a: string)
    requires IsWord(a)
    ensures Initials(a) == [UpperChar(a[0])]
  {
    TrimUnpadded(a);
    WordPrefixOfWord(a, []);
    assert a + [] == a;
  }

  /** Two words separated by white space give the upper-cased first letters
      of both ("Maya Patel" has initials "MP"). */
  lemma InitialsOfTwoWords(a: string, gap: string, b: string)
    requires IsWord(a) && IsGap(gap) && IsWord(b)
    ensures Initials(a + gap + b) == [UpperChar(a[0]), UpperChar(b[0])]
  {
    InitialsOfFirstTwoWords(a, gap, b, []);
    assert a + gap + b + [] == a + gap + b;
  }

  /** Only the first two words count, whatever follows them ("Mary Ann Lee"
      has initials "MA"). */
  lemma InitialsOfFirstTwoWords(a: string, gap: string, b: string, rest: string)
    requires IsWord(a) && IsGap(gap) && IsWord(b) && (rest == [] || IsSpace(rest[0]))
    ensures Initials(a + gap + b + rest) == [UpperChar(a[0]), UpperChar(b[0])]
  {
    var rest' := TrimAfterTwoWords(a, gap, b, rest);
    var parts := SplitSpaces(a + gap + b + rest');
    assert parts[0] == a && parts[1] == b by {
      SplitTwoWords(a, gap, b, rest');
    }
  }

  /** Trimming a name that starts with two words keeps both words and cuts
      only the tail after them. */
  lemma TrimAfterTwoWords(a: string, gap: string, b: string, rest: string) returns (rest': string)
    requires IsWord(a) && IsGap(gap) && IsWord(b) && (rest == [] || IsSpace(rest[0]))
    ensures Trim(a + gap + b + rest) == a + gap + b + rest'
    ensures rest' == [] || IsSpace(rest'[0])
  {
    var s := a + gap + b + rest;
    var head := |a| + |gap| + |b|;
    assert s[0] == a[0];
    assert s[head - 1] == b[|b| - 1];
    TrimShape(s);
    var t := Trim(s);
    assert TrimStart(s) == s;
    assert head <= |t|;
    rest' := s[head..|t|];
    assert t == a + gap + b + rest';
    assert rest' == [] || rest'[0] == rest[0];
  }

  /** `split(/\s+/)` of word, gap, word and a tail starting with white space
      has those two words first. */
  lemma SplitTwoWords(a: string, gap: string, b: string, rest: string)
    requires IsWord(a) && IsGap(gap) && IsWord(b) && (rest == [] || IsSpace(rest[0]))
    ensures var parts := SplitSpaces(a + gap + b + rest);
      |parts| >= 2 && parts[0] == a && parts[1] == b
  {
    var u := b + rest;
    var tail := gap + u;
    assert a + gap + b + rest == a + tail;
    assert tail[0] == gap[0];
    WordPrefixOfWord(a, tail);
    SplitSpacesAfterWord(a, tail);
    TrimStartOfGap(gap, u);
    WordPrefixOfWord(b, rest);
  }

  /** Past the first word, `split(/\s+/)` goes on after the white space. */
  lemma SplitSpacesAfterWord(w: string, tail: string)
    requires WordPrefix(w + tail) == w && tail != []
    ensures SplitSpaces(w + tail) == [w] + SplitSpaces(TrimStart(tail))
  {
    assert (w + tail)[|w|..] == tail;
  }

  /** A word followed by white space (or nothing) is the first word. */
  lemma {:induction false} WordPrefixOfWord(w: string, rest: string)
    requires IsWord(w) && (rest == [] || IsSpace(rest[0]))
    ensures WordPrefix(w + rest) == w
    decreases |w|
  {
    var s := w + rest;
    assert s[0] == w[0];
    if |w| > 1 {
      assert s[1..] == w[1..] + rest;
      WordPrefixOfWord(w[1..], rest);
      assert [w[0]] + w[1..] == w;
    } else {
      assert w == [w[0]];
      assert s[1..] == rest;
    }
  }

  /** `trimStart` removes exactly a leading gap. */
  lemma {:induction false} TrimStartOfGap(gap: string, b: string)
    requires IsGap(gap) && b != [] && !IsSpace(b[0])
    ensures TrimStart(gap + b) == b
    decreases |gap|
  {
    var s := gap + b;
    assert s[0] == gap[0];
    if |gap| > 1 {
      assert s[1..] == gap[1..] + b;
      TrimStartOfGap(gap[1..], b);
    } else {
      assert s[1..] == b;
      assert TrimStart(b) == b by {
        assert b[0] == b[0];
      }
    }
  }

  class GroupForm {
    var step: Step
    var name: string
    var search: string
    var selectedIds: seq<string>

    /** The selection has no repeated id, and the confirm step is reachable
        only with a non-blank name. */
    predicate Valid()
      reads this
    {
      NoDuplicates(selectedIds) && (step == Confirm ==> CanNext(name))
    }

    constructor()
      ensures Valid()
      ensures step == Form && name == "" && search == "" && selectedIds == []
    {
      step := Form;
      name := "";
      search := "";
      selectedIds := [];
    }

    /** Typing in the name box, which the form step shows. */
    method SetName(text: string)
      requires Valid() && step == Form
      modifies this
      ensures Valid()
      ensures name == text && step == old(step) && search == old(search) && selectedIds == old(selectedIds)
    {
      name := text;
    }

    method SetSearch(text: string)
      requires Valid()
      modifies this
      ensures Valid()
      ensures search == text && step == old(step) && name == old(name) && selectedIds == old(selectedIds)
    {
      search := text;
    }

    /** Tapping a friend row. */
    method ToggleFriend(id: string)
      requires Valid()
      modifies this
      ensures Valid()
      ensures selectedIds == Toggle(old(selectedIds), id)
      ensures id in selectedIds <==> id !in old(selectedIds)
      ensures step == old(step) && name == old(name) && search == old(search)
    {
      ToggleKeepsNoDuplicates(selectedIds, id);
      selectedIds := Toggle(selectedIds, id);
    }

    /** "Next": moves to the confirm step, unless the button is disabled
        because the name is blank. */
    method Next()
      requires Valid() && step == Form
      modifies this
      ensures Valid()
      ensures step == (if CanNext(old(name)) then Confirm else Form)
      ensures name == old(name) && search == old(search) && selectedIds == old(selectedIds)
    {
      if CanNext(name) {
        step := Confirm;
      }
    }

    /** The back arrow and "Cancel" on the confirm step. */
    method Back()
      requires Valid() && step == Confirm
      modifies this
      ensures Valid()
      ensures step == Form && name == old(name) && search == old(search) && selectedIds == old(selectedIds)
    {
      step := Form;
    }

    /** "Create Group": emits the trimmed name and the selected ids, then
        clears name and selection and returns to the form step (the search
        text stays). */
    method Create() returns (data: GroupCreationData)
      requires Valid() && step == Confirm
      modifies this
      ensures Valid()
      ensures data.name == Trim(old(name)) && data.memberIds == old(selectedIds)
      ensures data.name != [] && !IsSpace(data.name[0]) && !IsSpace(data.name[|data.name| - 1])
      ensures NoDuplicates(data.memberIds)
      ensures step == Form && name == "" && selectedIds == [] && search == old(search)
    {
      TrimShape(name);
      data := GroupCreationData(Trim(name), selectedIds);
      step := Form;
      name := "";
      selectedIds := [];
    }
  }
}
