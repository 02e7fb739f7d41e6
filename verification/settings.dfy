/** The settings screen: which section is shown, loading the stored settings
    with their fallbacks, and the three save actions. */
module Settings {
  import opened Optional

  /** `SettingSection`: the menu or one of the three forms. */
  datatype Section = Menu | Info | Fees | Security

  datatype State = State(
    section: Section,
    academyName: string,
    academyPhone: string,
    feeElementary: string,
    feeMiddle: string,
    feeHigh: string,
    newPassword: string,
    confirmPassword: string)

  /** The screen as first shown, before the settings arrive. */
  function InitialState(): (st: State)
    ensures st.section == Menu && !BackVisible(st.section)
    ensures st.newPassword == "" && st.confirmPassword == ""
    ensures LoadSettings(st, Some([])).feeElementary == "0"
  {
    State(Menu, "", "", "", "", "", "", "")
  }

  // --------------------------------------------------------------- navigation

  /** The user's clicks: a menu card, the back arrow, or a form's cancel button. */
  datatype Click = OpenInfo | OpenFees | OpenSecurity | BackArrow | CancelForm

  /** The back arrow is shown on every form and never on the menu. */
  predicate BackVisible(s: Section)
    ensures BackVisible(s) <==> s == Info || s == Fees || s == Security
  {
    s != Menu
  }

  /** A click's effect on the section; a click on a control that is not on
      screen does nothing. */
  function Navigate(s: Section, c: Click): (r: Section)
    ensures (c == BackArrow || c == CancelForm) && s != Menu ==> r == Menu
    ensures s == Menu && c == OpenInfo ==> r == Info
    ensures s == Menu && c == OpenFees ==> r == Fees
    ensures s == Menu && c == OpenSecurity ==> r == Security
    ensures s != Menu ==> r == s || r == Menu
  {
    match c
    case OpenInfo => if s == Menu then Info else s
    case OpenFees => if s == Menu then Fees else s
    case OpenSecurity => if s == Menu then Security else s
    case BackArrow => if BackVisible(s) then Menu else s
    case CancelForm => if s != Menu then Menu else s
  }

  /** Every form is one card away from the menu and one back-click from
      returning to it. */
  lemma EveryFormReturnsToMenu(s: Section)
    requires s != Menu
    ensures exists c :: Navigate(Menu, c) == s
    ensures Navigate(s, BackArrow) == Menu
  {
    match s
    case Info => assert Navigate(Menu, OpenInfo) == Info;
    case Fees => assert Navigate(Menu, OpenFees) == Fees;
    case Security => assert Navigate(Menu, OpenSecurity) == Security;
  }

  // ------------------------------------------------------------------ loading

  /** The value of the last stored row with key `key` (later rows overwrite
      earlier ones in `settingsMap`). */
  function Lookup(rows: seq<(string, string)>, key: string): (r: Option<string>)
    ensures |rows| > 0 && rows[|rows| - 1].0 == key ==> r == Some(rows[|rows| - 1].1)
    ensures r.Some? ==> (key, r.value) in rows
  {
    if |rows| == 0 then None
    else if rows[|rows| - 1].0 == key then Some(rows[|rows| - 1].1)
    else Lookup(rows[..|rows| - 1], key)
  }

  /** Row `i` is the last one with key `key`. */
  predicate LastRowFor(rows: seq<(string, string)>, key: string, i: int) {
    0 <= i < |rows| && rows[i].0 == key && forall j :: i < j < |rows| ==> rows[j].0 != key
  }

  /** A key is found iff some row has it, and then its value is that of the
      last such row. */
  lemma {:induction false} LookupIsLastRow(rows: seq<(string, string)>, key: string)
    ensures Lookup(rows, key).None? <==> forall i :: 0 <= i < |rows| ==> rows[i].0 != key
    ensures Lookup(rows, key).Some? ==> exists i :: LastRowFor(rows, key, i) && rows[i].1 == Lookup(rows, key).value
  {
    if |rows| > 0 {
      var n := |rows| - 1;
      if rows[n].0 == key {
        assert LastRowFor(rows, key, n);
      } else {
        var front := rows[..n];
        LookupIsLastRow(front, key);
        assert forall i :: 0 <= i < n ==> front[i] == rows[i];
        if Lookup(front, key).Some? {
          var i :| LastRowFor(front, key, i) && front[i].1 == Lookup(front, key).value;
          assert LastRowFor(rows, key, i);
        }
      }
    }
  }

  /** `value || fallback`: a missing or empty value gives the fallback. */
  function OrFallback(v: Option<string>, fallback: string): (r: string)
    ensures v.Some? && v.value != "" ==> r == v.value
    ensures !(v.Some? && v.value != "") ==> r == fallback
  {
    if v.Some? && v.value != "" then v.value else fallback
  }

  /** `fetchSettings`: name and phone fall back to "", the three fees to "0";
      nothing changes when the query returned no data. */
  function LoadSettings(st: State, data: Option<seq<(string, string)>>): (r: State)
    ensures data.None? ==> r == st
    ensures data.Some? ==> r.feeElementary != "" && r.feeMiddle != "" && r.feeHigh != ""
    ensures data.Some? ==> r.academyName == OrFallback(Lookup(data.value, "academy_name"), "")
    ensures data.Some? ==> r.academyPhone == OrFallback(Lookup(data.value, "academy_phone"), "")
    ensures data.Some? ==> r.feeElementary == OrFallback(Lookup(data.value, "fee_elementary"), "0")
    ensures data.Some? ==> r.feeMiddle == OrFallback(Lookup(data.value, "fee_middle"), "0")
    ensures data.Some? ==> r.feeHigh == OrFallback(Lookup(data.value, "fee_high"), "0")
    ensures r.section == st.section && r.newPassword == st.newPassword && r.confirmPassword == st.confirmPassword
  {
    match data
    case None => st
    case Some(rows) =>
      st.(academyName := OrFallback(Lookup(rows, "academy_name"), ""),
          academyPhone := OrFallback(Lookup(rows, "academy_phone"), ""),
          feeElementary := OrFallback(Lookup(rows, "fee_elementary"), "0"),
          feeMiddle := OrFallback(Lookup(rows, "fee_middle"), "0"),
          feeHigh := OrFallback(Lookup(rows, "fee_high"), "0"))
  }

  /** With no stored settings at all, the fees show "0" and name and phone are empty. */
  lemma EmptySettingsLoadDefaults(st: State)
    ensures var r := LoadSettings(st, Some([]));
            r.academyName == "" && r.academyPhone == ""
            && r.feeElementary == "0" && r.feeMiddle == "0" && r.feeHigh == "0"
  {
  }

  // ------------------------------------------------------------------- saving

  /** `handleSaveInfo`; `failed` is whether the upsert reported an error. */
  function SaveInfo(st: State, failed: bool): (r: State)
    ensures failed ==> r == st
    ensures !failed ==> r == st.(section := Menu)
  {
    if failed then st else st.(section := Menu)
  }

  /** The rows `handleSaveInfo` upserts. */
  function InfoUpdates(st: State): (rows: seq<(string, string)>)
    ensures Lookup(rows, "academy_name") == Some(st.academyName)
    ensures Lookup(rows, "academy_phone") == Some(st.academyPhone)
  {
    [("academy_name", st.academyName), ("academy_phone", st.academyPhone)]
  }

  /** The rows `handleSaveFees` upserts. */
  function FeeUpdates(st: State): (rows: seq<(string, string)>)
    ensures Lookup(rows, "fee_elementary") == Some(st.feeElementary)
    ensures Lookup(rows, "fee_middle") == Some(st.feeMiddle)
    ensures Lookup(rows, "fee_high") == Some(st.feeHigh)
  {
    var rows := [("fee_elementary", st.feeElementary), ("fee_middle", st.feeMiddle), ("fee_high", st.feeHigh)];
    assert rows[..2] == [("fee_elementary", st.feeElementary), ("fee_middle", st.feeMiddle)];
    assert rows[..2][..1] == [("fee_elementary", st.feeElementary)];
    assert Lookup(rows[..2][..1], "fee_elementary") == Some(st.feeElementary);
    assert Lookup(rows[..2], "fee_elementary") == Some(st.feeElementary);
    rows
  }

  /** The keys a list of rows mentions. */
  function Keys(rows: seq<(string, string)>): set<string> {
    set i | 0 <= i < |rows| :: rows[i].0
  }

  /** The stored rows whose key is not in `keys`, order kept. */
  function DropKeys(table: seq<(string, string)>, keys: set<string>): (r: seq<(string, string)>)
    ensures forall key :: key in keys ==> Lookup(r, key).None?
    ensures forall key :: key !in keys ==> Lookup(r, key) == Lookup(table, key)
  {
    if |table| == 0 then []
    else
      var rest := DropKeys(table[..|table| - 1], keys);
      var last := table[|table| - 1];
      if last.0 in keys then rest
      else
        assert (rest + [last])[..|rest|] == rest;
        rest + [last]
  }

  /** The settings table after an upsert: the rows of the updated keys are
      replaced by the new ones. */
  function Upsert(table: seq<(string, string)>, updates: seq<(string, string)>): (r: seq<(string, string)>)
    ensures forall key :: Lookup(r, key) == if Lookup(updates, key).Some? then Lookup(updates, key) else Lookup(table, key)
  {
    var kept := DropKeys(table, Keys(updates));
    forall key
      ensures Lookup(kept + updates, key) == if Lookup(updates, key).Some? then Lookup(updates, key) else Lookup(kept, key)
    {
      LookupAppend(kept, updates, key);
    }
    forall key | Lookup(updates, key).None?
      ensures key !in Keys(updates)
    {
      LookupIsLastRow(updates, key);
    }
    kept + updates
  }

  /** In rows `a` followed by rows `b`, a key of `b` takes its value from `b`. */
  lemma {:induction false} LookupAppend(a: seq<(string, string)>, b: seq<(string, string)>, key: string)
    ensures Lookup(a + b, key) == if Lookup(b, key).Some? then Lookup(b, key) else Lookup(a, key)
  {
    if |b| == 0 {
      assert a + b == a;
    } else {
      assert (a + b)[..|a + b| - 1] == a + b[..|b| - 1];
      LookupAppend(a, b[..|b| - 1], key);
    }
  }

  /** After a successful info save, loading the settings again shows the
      name and phone that were saved. */
  lemma SavedInfoLoadsBack(st: State, table: seq<(string, string)>, later: State)
    ensures var r := LoadSettings(later, Some(Upsert(table, InfoUpdates(st))));
            r.academyName == st.academyName && r.academyPhone == st.academyPhone
  {
  }

  /** After a successful fee save of three non-empty fees, loading the
      settings again shows those fees; an empty fee would come back as "0". */
  lemma SavedFeesLoadBack(st: State, table: seq<(string, string)>, later: State)
    ensures var r := LoadSettings(later, Some(Upsert(table, FeeUpdates(st))));
            r.feeElementary == (if st.feeElementary == "" then "0" else st.feeElementary)
            && r.feeMiddle == (if st.feeMiddle == "" then "0" else st.feeMiddle)
            && r.feeHigh == (if st.feeHigh == "" then "0" else st.feeHigh)
  {
  }


  /** `handleSaveFees`; `confirmed` is the answer to the confirmation prompt. */
  function SaveFees(st: State, confirmed: bool, failed: bool): (r: State)
    ensures !confirmed || failed ==> r == st
    ensures confirmed && !failed ==> r == st.(section := Menu)
  {
    if !confirmed then st
    else if failed then st
    else st.(section := Menu)
  }

  /** The outcome of the password checks in `handleChangePassword`. */
  datatype PasswordCheck = TooShort | Mismatch | Accepted

  /** A new password shorter than six characters is refused before the two
      entries are compared. */
  function CheckPassword(newPassword: string, confirmPassword: string): (r: PasswordCheck)
    ensures r == Accepted <==> |newPassword| >= 6 && newPassword == confirmPassword
    ensures r == TooShort <==> |newPassword| < 6
    ensures r == Mismatch <==> |newPassword| >= 6 && newPassword != confirmPassword
  {
    if |newPassword| < 6 then TooShort
    else if newPassword != confirmPassword then Mismatch
    else Accepted
  }

  /** `handleChangePassword`: only an accepted, confirmed and successful change
      clears both fields and returns to the menu; anything else leaves the
      screen as it was. */
  function ChangePassword(st: State, confirmed: bool, failed: bool): (r: State)
    ensures CheckPassword(st.newPassword, st.confirmPassword) != Accepted ==> r == st
    ensures !confirmed || failed ==> r == st
    ensures CheckPassword(st.newPassword, st.confirmPassword) == Accepted && confirmed && !failed
            ==> r == st.(newPassword := "", confirmPassword := "", section := Menu)
    ensures r != st ==> r.newPassword == "" && r.confirmPassword == "" && r.section == Menu
    ensures r.academyName == st.academyName && r.academyPhone == st.academyPhone
    ensures r.feeElementary == st.feeElementary && r.feeMiddle == st.feeMiddle && r.feeHigh == st.feeHigh
  {
    if CheckPassword(st.newPassword, st.confirmPassword) != Accepted then st
    else if !confirmed then st
    else if failed then st
    else st.(newPassword := "", confirmPassword := "", section := Menu)
  }

  /** A mismatched confirmation of a long enough password is never applied,
      whatever the user answers and whatever the backend says. */
  lemma MismatchNeverChanges(st: State, confirmed: bool, failed: bool)
    requires |st.newPassword| >= 6 && st.newPassword != st.confirmPassword
    ensures ChangePassword(st, confirmed, failed) == st
    ensures CheckPassword(st.newPassword, st.confirmPassword) == Mismatch
  {
  }
}
