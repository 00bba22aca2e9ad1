/** The radio items of the two tray submenus (main.py:281-282, 309-327): an item for `m`
    minutes is checked when the stored setting equals `m * 60` seconds. */
module TrayMenu {
  import opened Settings
  import opened Timer

  const WorkOptions: seq<int> := [10, 15, 20, 25, 30, 45, 60]
  const IdleOptions: seq<int> := [2, 5, 7, 10, 15]

  predicate IsChecked(stored: int, minutes: int) {
    stored == minutes * 60
  }

  predicate Distinct(options: seq<int>) {
    forall i, j :: 0 <= i < j < |options| ==> options[i] != options[j]
  }

  /** The check marks of one submenu as the tray draws it, item by item. */
  method CheckMarks(options: seq<int>, stored: int) returns (marks: seq<bool>)
    ensures |marks| == |options|
    ensures forall i :: 0 <= i < |options| ==> (marks[i] <==> IsChecked(stored, options[i]))
    ensures Distinct(options) ==> forall i, j :: 0 <= i < j < |marks| && marks[i] ==> !marks[j]
  {
    marks := [];
    var k := 0;
    while k < |options|
      invariant k <= |options| && |marks| == k
      invariant forall i :: 0 <= i < k ==> (marks[i] <==> IsChecked(stored, options[i]))
    {
      marks := marks + [IsChecked(stored, options[k])];
      k := k + 1;
    }
    if Distinct(options) {
      forall i, j | 0 <= i < j < |marks| && marks[i]
        ensures !marks[j]
      {
        if marks[j] {
          AtMostOneChecked(options, stored, i, j);
        }
      }
    }
  }

  /** In a submenu whose options are distinct, at most one item is checked. */
  lemma AtMostOneChecked(options: seq<int>, stored: int, i: int, j: int)
    requires Distinct(options)
    requires 0 <= i < |options| && 0 <= j < |options|
    requires IsChecked(stored, options[i]) && IsChecked(stored, options[j])
    ensures i == j
  {
  }

  lemma OptionsDistinct()
    ensures Distinct(WorkOptions) && Distinct(IdleOptions)
  {
  }

  /** Choosing a work item checks that item and no other. */
  lemma ChoosingWorkChecksIt(app: App, k: int, now: real)
    requires 0 <= k < |WorkOptions|
    ensures var stored := SetWorkInterval(app, WorkOptions[k], now).0.config.workInterval;
      forall i :: 0 <= i < |WorkOptions| ==> (IsChecked(stored, WorkOptions[i]) <==> i == k)
  {
    OptionsDistinct();
    var stored := SetWorkInterval(app, WorkOptions[k], now).0.config.workInterval;
    forall i | 0 <= i < |WorkOptions| && IsChecked(stored, WorkOptions[i])
      ensures i == k
    {
      AtMostOneChecked(WorkOptions, stored, i, k);
    }
  }

  /** Choosing an idle item checks that item and no other. */
  lemma ChoosingIdleChecksIt(app: App, k: int)
    requires 0 <= k < |IdleOptions|
    ensures var stored := SetIdleThreshold(app, IdleOptions[k]).0.config.idleThreshold;
      forall i :: 0 <= i < |IdleOptions| ==> (IsChecked(stored, IdleOptions[i]) <==> i == k)
  {
    OptionsDistinct();
    var stored := SetIdleThreshold(app, IdleOptions[k]).0.config.idleThreshold;
    forall i | 0 <= i < |IdleOptions| && IsChecked(stored, IdleOptions[i])
      ensures i == k
    {
      AtMostOneChecked(IdleOptions, stored, i, k);
    }
  }

  /** With the default settings the "20 minutes" and "5 minutes" items are checked. */
  lemma DefaultsChecked()
    ensures IsChecked(Defaults.workInterval, WorkOptions[2]) && WorkOptions[2] == 20
    ensures IsChecked(Defaults.idleThreshold, IdleOptions[1]) && IdleOptions[1] == 5
  {
  }

  /** A stored value that is no whole number of listed minutes, such as one read from an
      edited settings file, checks no item. */
  lemma OffMenuValueChecksNothing(stored: int)
    requires stored % 60 != 0
    ensures forall i :: 0 <= i < |WorkOptions| ==> !IsChecked(stored, WorkOptions[i])
    ensures forall i :: 0 <= i < |IdleOptions| ==> !IsChecked(stored, IdleOptions[i])
  {
  }
}
