/** The five-screen wizard: start screen (page 0), steps 1 to 3, and the
    review screen (page 4), with the navigation bar, the edit buttons of the
    review screen and the session state they act on. */
module Wizard {
  import opened Record
  import Display
  import Standards

  const LastPage := 4

  /** The buttons that change the page. */
  datatype Button =
    | Start          // "new project" on the start screen
    | Home           // "back to start" in the navigation bar
    | Prev           // "previous step"
    | Next           // "next step"
    | NewDesign      // "new design" on the review screen
    | Edit(key: string)  // the edit button of one review row

  /** The keys the review screen shows, each with its own edit button: ten
      distinct keys, those of report page 1 followed by those of page 2. */
  function ReviewKeys(): (ks: seq<string>)
    ensures |ks| == |Display.Page1Table| + |Display.Page2Table| == 10
    ensures forall i :: 0 <= i < |Display.Page1Table| ==> ks[i] == Display.Page1Table[i].key
    ensures forall i :: 0 <= i < |Display.Page2Table| ==> ks[|Display.Page1Table| + i] == Display.Page2Table[i].key
    ensures forall i, j :: 0 <= i < j < |ks| ==> ks[i] != ks[j]
  {
    Display.PagesFollowReviewTable();
    seq(|Display.ReviewTable|, i requires 0 <= i < |Display.ReviewTable| => Display.ReviewTable[i].1)
  }

  /** Whether `b` is on screen when the session shows `page`. */
  predicate Shown(page: int, b: Button) {
    match b
    case Start => page == 0
    case Home => page > 0
    case Prev => page > 1
    case Next => 0 < page < LastPage
    case NewDesign => page == LastPage
    case Edit(key) => page == LastPage && key in ReviewKeys()
  }

  /** The buttons that delete every key of the session state. */
  predicate Resets(b: Button) {
    b == Home || b == NewDesign
  }

  /** The step whose screen edits `key`. */
  function EditStep(key: string): (step: int)
    ensures 1 <= step <= 3
  {
    if key in ["project_title", "public_product"] then 1
    else if key in ["selected_standards", "selected_core_competencies", "selected_sel_competencies"] then 2
    else 3
  }

  /** The keys each step's screen writes back into the session state. */
  function EditedOn(step: int): set<string> {
    if step == 1 then {"project_title", "public_product", "question_analysis"}
    else if step == 2 then
      {"grade_group", "selected_subject", "selected_standards",
       "selected_core_competencies", "selected_sel_competencies"}
    else if step == 3 then
      {"sustained_inquiry", "process_assessment", "student_voice_choice",
       "critique_revision", "reflection"}
    else {}
  }

  /** The page shown after `b` is pressed on `page` and the script has run
      again; a button not on screen cannot be pressed and changes nothing. */
  function After(page: int, b: Button): (r: int)
    ensures 0 <= page <= LastPage ==> 0 <= r <= LastPage
    ensures 0 <= page <= LastPage ==> (r != page <==> Shown(page, b))
    ensures Shown(page, b) && Resets(b) ==> r == 0
  {
    if !Shown(page, b) then page
    else match b
      case Start => 1
      case Home => 0
      case NewDesign => 0
      case Prev => page - 1
      case Next => page + 1
      case Edit(key) => EditStep(key)
  }

  /** The page after a sequence of presses. */
  function Walk(page: int, presses: seq<Button>): int
    decreases |presses|
  {
    if presses == [] then page else Walk(After(page, presses[0]), presses[1..])
  }

  /** The start screen shows only the start button; every other screen shows
      "back to start" and exactly one of "next step" (steps 1 to 3) and
      "new design" (the review screen). */
  lemma ScreenButtons(page: int)
    requires 0 <= page <= LastPage
    ensures page == 0 ==> forall b :: Shown(page, b) <==> b == Start
    ensures page > 0 ==> Shown(page, Home) && !Shown(page, Start) && Shown(page, Next) != Shown(page, NewDesign)
  {
  }

  /** From a step or the review screen, the start screen comes back exactly
      when a reset button on screen is pressed. */
  lemma BackToStartOnlyByReset(page: int, b: Button)
    requires 1 <= page <= LastPage
    ensures After(page, b) == 0 <==> Shown(page, b) && Resets(b)
  {
  }

  /** "Next" advances exactly on steps 1 to 3; "previous" goes back exactly on
      steps 2 to 4. */
  lemma NextAndPrevGuards(page: int)
    requires 0 <= page <= LastPage
    ensures After(page, Next) == page + 1 <==> 0 < page < LastPage
    ensures After(page, Next) != page + 1 ==> After(page, Next) == page
    ensures After(page, Prev) == page - 1 <==> page > 1
    ensures After(page, Prev) != page - 1 ==> After(page, Prev) == page
  {
  }

  /** "Previous" undoes "next" and "next" undoes "previous" wherever both are on screen. */
  lemma NextPrevInverse(page: int)
    ensures 0 < page < LastPage ==> After(After(page, Next), Prev) == page
    ensures 1 < page <= LastPage ==> After(After(page, Prev), Next) == page
  {
  }

  /** Every edit button of the review screen opens the step that edits its key. */
  lemma EditRoutesToItsStep()
    ensures forall i :: 0 <= i < |ReviewKeys()| ==>
      After(LastPage, Edit(ReviewKeys()[i])) == EditStep(ReviewKeys()[i])
      && ReviewKeys()[i] in EditedOn(EditStep(ReviewKeys()[i]))
  {
  }

  /** Any number of presses keeps the page within 0..4. */
  lemma {:induction false} WalkInRange(page: int, presses: seq<Button>)
    requires 0 <= page <= LastPage
    ensures 0 <= Walk(page, presses) <= LastPage
    decreases |presses|
  {
    if presses != [] {
      WalkInRange(After(page, presses[0]), presses[1..]);
    }
  }

  /** Once past the start screen, the session never returns to it without a reset button. */
  lemma {:induction false} WalkStaysStarted(page: int, presses: seq<Button>)
    requires 1 <= page <= LastPage
    requires forall i :: 0 <= i < |presses| ==> !Resets(presses[i])
    ensures 1 <= Walk(page, presses) <= LastPage
    decreases |presses|
  {
    if presses != [] {
      BackToStartOnlyByReset(page, presses[0]);
      WalkStaysStarted(After(page, presses[0]), presses[1..]);
    }
  }

  /** The keys that name lists in the session state. */
  const ListKeys: set<string> :=
    {"selected_standards", "selected_core_competencies", "selected_sel_competencies", "student_voice_choice"}

  /** The keys given a value when the session starts, in the order they are set. */
  const DefaultKeys: seq<string> := [
    "project_title", "public_product", "grade_group", "selected_subject",
    "selected_standards", "selected_core_competencies", "selected_sel_competencies",
    "sustained_inquiry", "student_voice_choice", "critique_revision", "reflection",
    "process_assessment", "ai_feedback", "question_analysis"
  ]

  /** The starting value of one key: the middle grade group, Korean as the
      subject, an empty list or an empty text. */
  function DefaultValue(key: string): Value {
    if key == "grade_group" then Text("3-4학년군")
    else if key == "selected_subject" then Text("국어")
    else if key in ListKeys then Items([])
    else Text("")
  }

  function Defaults(): (d: map<string, Value>)
    ensures forall k :: k in d <==> k in DefaultKeys
    ensures Display.StandardsKey in d && d[Display.StandardsKey] == Items([])
  {
    DefaultsOf(DefaultKeys)
  }

  /** The defaults of the keys in `ks`. */
  function DefaultsOf(ks: seq<string>): map<string, Value> {
    map k | k in ks :: DefaultValue(k)
  }

  /** Adding one key to the list only adds its default (or keeps it when the
      key is listed already), so a key already stored stays as it is. */
  lemma DefaultsOfAppend(ks: seq<string>, key: string)
    ensures DefaultsOf(ks + [key]) == DefaultsOf(ks)[key := DefaultValue(key)]
  {
    assert forall k :: k in ks + [key] <==> k in ks || k == key;
  }

  /** Filling in one more default keeps every stored value. */
  lemma FillStep(ks: seq<string>, stored: map<string, Value>, key: string)
    ensures var m := DefaultsOf(ks) + stored;
      (if key in m then m else m[key := DefaultValue(key)]) == DefaultsOf(ks + [key]) + stored
  {
    DefaultsOfAppend(ks, key);
  }

  /** The loop of the initialisation: every key of `keys` that is not
      stored yet gets its default value; stored keys keep theirs. */
  method FillMissing(stored: map<string, Value>, keys: seq<string>) returns (filled: map<string, Value>)
    ensures filled == DefaultsOf(keys) + stored
  {
    filled := stored;
    for i := 0 to |keys|
      invariant filled == DefaultsOf(keys[..i]) + stored
    {
      var key := keys[i];
      FillStep(keys[..i], stored, key);
      assert keys[..i + 1] == keys[..i] + [key];
      if key !in filled {
        filled := filled[key := DefaultValue(key)];
      }
    }
    assert keys[..|keys|] == keys;
  }

  /** The session state: the page number (a key of its own, which a reset
      deletes along with the others) and the stored form values. */
  class Session {
    var hasPage: bool
    var page: int
    var entries: map<string, Value>

    /** The page is a valid screen and the stored standards are a list. */
    ghost predicate Valid()
      reads this
    {
      (hasPage ==> 0 <= page <= LastPage)
      && (Display.StandardsKey in entries ==> entries[Display.StandardsKey].Items?)
    }

    /** A new browser session holds no keys. */
    constructor ()
      ensures Valid() && !hasPage && entries == map[]
    {
      hasPage := false;
      page := 0;
      entries := map[];
    }

    /** Run at the top of every script run: a missing page becomes the start
        screen and every missing key gets its default; present keys are kept. */
    method Initialize()
      modifies this
      requires Valid()
      ensures Valid() && hasPage
      ensures page == if old(hasPage) then old(page) else 0
      ensures entries == Defaults() + old(entries)
    {
      if !hasPage {
        hasPage := true;
        page := 0;
      }
      entries := FillMissing(entries, DefaultKeys);
    }

    /** The press of `b` itself: a reset deletes every key, the other buttons
        set the page; a button not on screen does nothing. */
    method Press(b: Button)
      modifies this
      requires Valid() && hasPage
      ensures Valid()
      ensures Shown(old(page), b) && Resets(b) ==> !hasPage && entries == map[]
      ensures !(Shown(old(page), b) && Resets(b)) ==>
        hasPage && page == After(old(page), b) && entries == old(entries)
    {
      if Shown(page, b) {
        match b
        case Start => page := 1;
        case Home => hasPage := false; entries := map[];
        case NewDesign => hasPage := false; entries := map[];
        case Prev => page := page - 1;
        case Next => page := page + 1;
        case Edit(key) => page := EditStep(key);
      }
    }

    /** One script run in which `b` is pressed, followed by the rerun the
        button asks for: the new page is `After` of the old one, and a reset
        leaves exactly the defaults. */
    method Run(b: Button)
      modifies this
      requires Valid()
      ensures Valid() && hasPage
      ensures page == After(if old(hasPage) then old(page) else 0, b)
      ensures var p := if old(hasPage) then old(page) else 0;
        entries == if Shown(p, b) && Resets(b) then Defaults() else Defaults() + old(entries)
    {
      Initialize();
      Press(b);
      Initialize();
      assert Defaults() + (Defaults() + old(entries)) == Defaults() + old(entries);
    }

    /** Step 2 with the options `current` of the subject on screen and the
        multiselect's choice `chosen`: the stored standards become the merge
        of step 2, every other key is kept. */
    method ChooseStandards(current: seq<string>, chosen: seq<string>)
      modifies this
      requires Valid() && Display.StandardsKey in entries
      ensures Valid() && hasPage == old(hasPage) && page == old(page)
      ensures entries == old(entries)[Display.StandardsKey :=
        Items(Standards.AfterStep2(old(entries)[Display.StandardsKey].xs, current, chosen))]
    {
      var previous := entries[Display.StandardsKey].xs;
      if current != [] {
        entries := entries[Display.StandardsKey := Items(Standards.Merge(previous, current, chosen))];
      }
    }
  }
}
