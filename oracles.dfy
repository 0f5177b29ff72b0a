/** The outside world the matcher consults: the server's online players, the
    user storage, the chat settings and the players' visibility relation.
    Each is a value here rather than a call into Bukkit or the storage layer. */
module Oracles {

  /** A user record as the matcher reads it (IUser with its data and player). */
  datatype User = User(name: string, nickname: string, online: bool, displayName: string)

  /** A Bukkit player; the matcher only ever asks for its name. */
  datatype Player = Player(name: string)

  /** The collaborators of one query, fixed for its duration. */
  datatype World = World(
    onlineNames: seq<string>,                // Server.getOnlinePlayers, by name, in server order
    knownNames: seq<string>,                 // UserMap.getAllUniqueUsers, in the set's iteration order
    userOf: string -> User,                  // UserMap.getUser(name)
    canSee: (string, string) -> bool,        // viewer.canSee(target), by player name
    nicknamePrefix: string)                  // the chat settings' nickname prefix
}
