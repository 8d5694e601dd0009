/** The in-memory game repository: a list of games, seeded with three
    upcoming games, that `createGame` and `createQuickGame` prepend to. Ids
    and today's short date, which the code takes from the clock, are
    parameters. */
module GameRepository {
  import opened JsText

  datatype Participant = Participant(id: string, name: string)

  /** The only status a game has. */
  datatype Status = Upcoming

  datatype Game = Game(
    id: string,
    title: string,
    date: string,
    time: string,
    location: string,
    participants: seq<Participant>,
    maxPlayers: int,
    status: Status,
    isJoined: bool)

  datatype GameCreationData = GameCreationData(title: string, time: string, location: string, maxPlayers: int)

  const UpcomingGamesSeed: seq<Game> := [
    Game("1", "Friday Night Hoops", "Today", "7:00 PM", "Riverside Park Basketball Court",
      [Participant("1", "Alex Rodriguez"), Participant("2", "Jordan Smith"), Participant("3", "Maya Patel"),
       Participant("4", "Chris Johnson"), Participant("5", "Sarah Chen")],
      10, Upcoming, true),
    Game("2", "Weekend Pickup", "Tomorrow", "2:00 PM", "Central Park Courts",
      [Participant("6", "Marcus Davis"), Participant("7", "Lisa Wang"), Participant("8", "Tyler Brown")],
      8, Upcoming, false),
    Game("3", "Morning Shootaround", "Sunday", "9:00 AM", "Oak Street Recreation Center",
      [Participant("9", "David Lee"), Participant("10", "Emma Wilson"), Participant("11", "Jake Miller"),
       Participant("12", "Rachel Green"), Participant("13", "Tom Anderson"), Participant("14", "Nina Roberts")],
      12, Upcoming, false)
  ]

  const QuickGameLocation := "Riverside Park Basketball Court"

  const QuickGameParticipants: seq<Participant> := [
    Participant("1", "Alex Rodriguez"),
    Participant("2", "Maya Patel"),
    Participant("3", "Chris Johnson")
  ]

  const QuickGameTitlePrefix := "Quick Game - Group "

  /** The day a quick game is on: "Today" when the chosen time mentions it,
      "Tomorrow" otherwise. */
  function QuickGameDate(time: string): (r: string)
    ensures r == "Today" || r == "Tomorrow"
  {
    if Includes(time, "Today") then "Today" else "Tomorrow"
  }

  /** A quick game is today exactly when "Today" occurs somewhere in its time. */
  lemma QuickGameDateToday(time: string)
    ensures QuickGameDate(time) == "Today" <==> exists i :: OccursAt(time, "Today", i)
  {
    IncludesAt(time, "Today");
  }

  /** A time picked as "Today ..." gives a game today. */
  lemma QuickGameDateTodayExample()
    ensures QuickGameDate("Today 7:00 PM") == "Today"
  {
    assert OccursAt("Today 7:00 PM", "Today", 0);
    QuickGameDateToday("Today 7:00 PM");
  }

  /** The match is case-sensitive: "today" in lower case means tomorrow. */
  lemma QuickGameDateCaseSensitive()
    ensures QuickGameDate("today") == "Tomorrow"
  {
    QuickGameDateToday("today");
    assert "today"[0] != "Today"[0];
  }

  /** The games a repository starts with are always its oldest entries. */
  predicate SeedAtTail(games: seq<Game>) {
    |games| >= |UpcomingGamesSeed| && games[|games| - |UpcomingGamesSeed|..] == UpcomingGamesSeed
  }

  /** Prepending keeps the seed at the tail. */
  lemma PrependKeepsSeed(g: Game, games: seq<Game>)
    requires SeedAtTail(games)
    ensures SeedAtTail([g] + games)
  {
    var n := |UpcomingGamesSeed|;
    assert ([g] + games)[|games| + 1 - n..] == games[|games| - n..];
  }

  class MockGameRepository {
    var games: seq<Game>

    predicate Valid()
      reads this
    {
      SeedAtTail(games)
    }

    constructor()
      ensures Valid()
      ensures games == UpcomingGamesSeed
    {
      games := UpcomingGamesSeed;
    }

    /** `listGames`: a copy of the list; nothing changes. */
    method ListGames() returns (r: seq<Game>)
      requires Valid()
      ensures r == games
      ensures SeedAtTail(r)
    {
      r := games;
    }

    /** `createGame`: a new joined, upcoming game without participants,
        copying title, time, location and player cap from the input, put in
        front of the list. */
    method CreateGame(input: GameCreationData, id: string, today: string) returns (g: Game)
      requires Valid()
      modifies this
      ensures Valid()
      ensures g.id == id && g.date == today
      ensures g.title == input.title && g.time == input.time && g.location == input.location
      ensures g.maxPlayers == input.maxPlayers
      ensures g.participants == [] && g.status == Upcoming && g.isJoined
      ensures games == [g] + old(games)
    {
      g := Game(id, input.title, today, input.time, input.location, [], input.maxPlayers, Upcoming, true);
      PrependKeepsSeed(g, games);
      games := [g] + games;
    }

    /** `createQuickGame`: a joined, upcoming game for the group at the given
        time, with the three default players and room for ten, put in front
        of the list. */
    method CreateQuickGame(groupId: string, time: string, id: string) returns (g: Game)
      requires Valid()
      modifies this
      ensures Valid()
      ensures g.id == id && g.title == QuickGameTitlePrefix + groupId && g.time == time
      ensures g.date == "Today" <==> Includes(time, "Today")
      ensures g.date == "Today" || g.date == "Tomorrow"
      ensures g.location == QuickGameLocation && g.participants == QuickGameParticipants
      ensures |g.participants| == 3 && g.maxPlayers == 10
      ensures g.status == Upcoming && g.isJoined
      ensures games == [g] + old(games)
    {
      g := Game(id, QuickGameTitlePrefix + groupId, QuickGameDate(time), time, QuickGameLocation,
                QuickGameParticipants, 10, Upcoming, true);
      PrependKeepsSeed(g, games);
      games := [g] + games;
    }
  }
}
