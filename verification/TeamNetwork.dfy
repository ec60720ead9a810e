/** The per-team subnets of network/team_network.go. */
module TeamNetwork {
  import opened Options

  /** Teams are registered under positive numbers only (web/setup_teams.go). */
  type TeamNumber = n: int | n > 0 witness 1

  /** The part of a team record the network code sees; the key stands for every other field. */
  datatype Team = Team(id: TeamNumber, wpaKey: string)

  const STATION_COUNT := 6

  /** How many of the stations, counting from the first. */
  type Count = n: nat | n <= STATION_COUNT

  /** One flag per station. */
  type SixFlags = fs: seq<bool> | |fs| == STATION_COUNT witness [false, false, false, false, false, false]

  type Teams = ts: seq<Option<Team>> | |ts| == STATION_COUNT witness [None, None, None, None, None, None]

  /** Team numbers by station, with 0 for an empty one. */
  type Lineup = ids: seq<int> | |ids| == STATION_COUNT && forall i :: 0 <= i < STATION_COUNT ==> ids[i] >= 0
    witness [0, 0, 0, 0, 0, 0]

  const VLAN_FOR_STATION: seq<int> := [10, 20, 30, 40, 50, 60]

  /** The subnet 10.second.third.0/24. */
  datatype Subnet = Subnet(second: int, third: int)

  /** The field's own subnet, held by VLAN 1. */
  const MANAGEMENT_SUBNET := Subnet(0, 100)

  function TeamSubnet(team: TeamNumber): Subnet {
    Subnet(team / 100, team % 100)
  }

  /** True if every octet of the subnet fits in a byte, so that the switch can parse it. */
  predicate ValidSubnet(net: Subnet) {
    0 <= net.second <= 255 && 0 <= net.third <= 255
  }

  function TeamId(team: Option<Team>): int {
    match team
    case None => 0
    case Some(t) => t.id
  }

  function TeamIds(teams: Teams): (ids: Lineup) {
    seq(STATION_COUNT, i requires 0 <= i < STATION_COUNT => TeamId(teams[i]))
  }

  /** No team number appears at two stations. */
  predicate DistinctTeams(ids: Lineup) {
    forall i, j :: 0 <= i < j < STATION_COUNT && ids[i] != 0 ==> ids[i] != ids[j]
  }

  /** No subnet the switch can take is asked for at two stations. */
  predicate NoSubnetTwice(ids: Lineup) {
    forall i, j :: 0 <= i < j < STATION_COUNT && ids[i] == ids[j] && ids[i] > 0 ==> !ValidSubnet(TeamSubnet(ids[i]))
  }

  /** The subnet is the team number as it is spoken: team 841 gets 10.8.41. */
  lemma SubnetSpellsTeam(team: TeamNumber)
    ensures var net := TeamSubnet(team);
      100 * net.second + net.third == team && 0 <= net.third <= 99 && net.second >= 0
    ensures TeamSubnet(team) != Subnet(0, 100)
  {
  }

  /** Distinct teams get distinct subnets, and none of them gets the field's own. */
  lemma TeamSubnetsNeverCollide(a: TeamNumber, b: TeamNumber)
    ensures TeamSubnet(a) == TeamSubnet(b) <==> a == b
    ensures TeamSubnet(a) != MANAGEMENT_SUBNET
  {
  }

  /** Exactly the teams up to 25599 have a subnet that can be written as an IP address. */
  lemma AddressableTeams(team: TeamNumber)
    ensures ValidSubnet(TeamSubnet(team)) <==> team <= 25599
  {
  }

  /** The loop that reduces team records to their numbers. */
  method ComputeTeamIds(teams: Teams) returns (ids: Lineup)
    ensures ids == TeamIds(teams)
  {
    ids := [0, 0, 0, 0, 0, 0];
    for i := 0 to STATION_COUNT
      invariant forall k :: 0 <= k < i ==> ids[k] == TeamId(teams[k])
      invariant forall k :: i <= k < STATION_COUNT ==> ids[k] == 0
    {
      if teams[i].Some? {
        ids := ids[i := teams[i].value.id];
      }
    }
  }
}
