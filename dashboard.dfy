/**
 * The maintenance dashboard's threshold rules: the bar colour of each part's
 * health, the badge colour in the upcoming-service list, and which tasks that
 * list shows, over the page's fixed sample data.
 */
module Dashboard {

  /** A maintenance task; `health` is a percentage. */
  datatype MaintenanceTask = MaintenanceTask(id: string, part: string, health: real, lastService: string, nextService: string)

  /** The page's fixed task list. */
  const MockData: seq<MaintenanceTask> := [
    MaintenanceTask("1", "Engine Oil", 85.0, "2023-11-10", "2024-05-10"),
    MaintenanceTask("2", "Brake Pads", 45.0, "2023-08-15", "2024-02-15"),
    MaintenanceTask("3", "Tires", 70.0, "2023-12-01", "2024-06-01"),
    MaintenanceTask("4", "Battery", 92.0, "2024-01-05", "2026-01-05")]

  const Green: string := "#4ade80"
  const Blue: string := "#60a5fa"
  const Yellow: string := "#facc15"

  /** The chart bar's fill for a health value. */
  function BarFill(health: real): (r: string)
    ensures r == Green <==> health > 80.0
    ensures r == Blue <==> 50.0 < health <= 80.0
    ensures r == Yellow <==> health <= 50.0
  {
    if health > 80.0 then Green else if health > 50.0 then Blue else Yellow
  }

  /** The rank of a fill, worst first. */
  function FillRank(fill: string): nat {
    if fill == Yellow then 0 else if fill == Blue then 1 else 2
  }

  /** More health never gives a worse bar colour. */
  lemma BarFillMonotone(h1: real, h2: real)
    requires h1 <= h2
    ensures FillRank(BarFill(h1)) <= FillRank(BarFill(h2))
  {
  }

  const RedBadge: string := "bg-red-500/20 text-red-400"
  const BlueBadge: string := "bg-blue-500/20 text-blue-400"

  /** The upcoming-service badge's classes for a health value. */
  function Badge(health: real): (r: string)
    ensures r == RedBadge <==> health < 50.0
    ensures r == BlueBadge <==> health >= 50.0
  {
    if health < 50.0 then RedBadge else BlueBadge
  }

  /** The two thresholds disagree at exactly one value: a yellow bar beside a blue badge happens only at 50. */
  lemma ThresholdsDisagreeAtFifty(health: real)
    ensures BarFill(health) == Yellow && Badge(health) == BlueBadge <==> health == 50.0
  {
  }

  /** A red badge always sits beside a yellow bar. */
  lemma RedBadgeYellowBar(health: real)
    requires Badge(health) == RedBadge
    ensures BarFill(health) == Yellow
  {
  }

  /** `tasks.filter(t => t.health < 90)`. */
  function UpcomingService(tasks: seq<MaintenanceTask>): (r: seq<MaintenanceTask>)
    ensures |r| <= |tasks|
    ensures forall t :: t in r <==> t in tasks && t.health < 90.0
  {
    if tasks == [] then []
    else if tasks[0].health < 90.0 then [tasks[0]] + UpcomingService(tasks[1..])
    else UpcomingService(tasks[1..])
  }

  /** The filter keeps the original order: it distributes over concatenation. */
  lemma {:induction false} UpcomingServiceAppend(a: seq<MaintenanceTask>, b: seq<MaintenanceTask>)
    ensures UpcomingService(a + b) == UpcomingService(a) + UpcomingService(b)
  {
    if a != [] {
      assert (a + b)[1..] == a[1..] + b;
      UpcomingServiceAppend(a[1..], b);
    } else {
      assert a + b == b;
    }
  }

  /** Every task in the list is due; a list of due tasks is kept whole. */
  lemma {:induction false} UpcomingServiceAllDue(tasks: seq<MaintenanceTask>)
    requires forall i :: 0 <= i < |tasks| ==> tasks[i].health < 90.0
    ensures UpcomingService(tasks) == tasks
  {
    if tasks != [] {
      UpcomingServiceAllDue(tasks[1..]);
    }
  }

  /** With the sample data only Battery, at 92, is left out of the upcoming list. */
  lemma MockUpcoming()
    ensures UpcomingService(MockData) == MockData[..3]
    ensures MockData[3].part == "Battery" && MockData[3] !in UpcomingService(MockData)
  {
    assert MockData == MockData[..3] + [MockData[3]];
    UpcomingServiceAppend(MockData[..3], [MockData[3]]);
    UpcomingServiceAllDue(MockData[..3]);
    assert UpcomingService([MockData[3]]) == [];
    assert MockData[..3] + [] == MockData[..3];
  }

  /** With the sample data the bars are green, yellow, blue, green, and only Brake Pads has a red badge. */
  lemma MockColours()
    ensures BarFill(MockData[0].health) == Green && BarFill(MockData[1].health) == Yellow
    ensures BarFill(MockData[2].health) == Blue && BarFill(MockData[3].health) == Green
    ensures forall i :: 0 <= i < |MockData| ==> (Badge(MockData[i].health) == RedBadge <==> MockData[i].part == "Brake Pads")
  {
  }
}
