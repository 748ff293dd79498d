/**
 * The play store (src/store/usePlayStore.ts): an optional play holding players and
 * lines, two selected ids and an interaction mode. Edits to the play's lists do nothing
 * while there is no play.
 */
module PlayStore {
  import opened Basics
  import opened PlayTypes

  /** A saved play: its identity and name, its players and lines, and its side (`mode`). */
  datatype PlayData = PlayData(id: string, name: string, players: seq<Player>, lines: seq<Line>, mode: string)

  datatype Mode = SelectMode | DrawMode | MoveMode

  class Store {
    var play: Option<PlayData>
    var selectedPlayerId: Option<string>
    var selectedLineId: Option<string>
    var mode: Mode

    /** The initial state: no play, nothing selected, select mode. */
    constructor()
      ensures play == None && selectedPlayerId == None && selectedLineId == None && mode == SelectMode
    {
      play := None;
      selectedPlayerId := None;
      selectedLineId := None;
      mode := SelectMode;
    }

    /** `setPlay`: the play is replaced wholesale. */
    method SetPlay(p: PlayData)
      modifies this
      ensures play == Some(p)
      ensures selectedPlayerId == old(selectedPlayerId) && selectedLineId == old(selectedLineId) && mode == old(mode)
    {
      play := Some(p);
    }

    /** `addPlayer`: appended to the play's players; no play stays no play. */
    method AddPlayer(p: Player)
      modifies this
      ensures play == if old(play).Some? then Some(old(play).value.(players := old(play).value.players + [p])) else None
      ensures selectedPlayerId == old(selectedPlayerId) && selectedLineId == old(selectedLineId) && mode == old(mode)
    {
      if play.Some? {
        play := Some(play.value.(players := play.value.players + [p]));
      }
    }

    /** `updatePlayer`: merged into the play's players with that id only. */
    method UpdatePlayer(id: string, u: PlayerPatch)
      modifies this
      ensures play == if old(play).Some? then Some(old(play).value.(players := UpdatePlayers(old(play).value.players, id, u))) else None
      ensures selectedPlayerId == old(selectedPlayerId) && selectedLineId == old(selectedLineId) && mode == old(mode)
    {
      if play.Some? {
        play := Some(play.value.(players := UpdatePlayers(play.value.players, id, u)));
      }
    }

    /** `removePlayer`: only the players with that id go; their lines stay. */
    method RemovePlayer(id: string)
      modifies this
      ensures play == if old(play).Some? then Some(old(play).value.(players := WithoutPlayer(old(play).value.players, id))) else None
      ensures play.Some? ==> play.value.lines == old(play).value.lines
      ensures selectedPlayerId == old(selectedPlayerId) && selectedLineId == old(selectedLineId) && mode == old(mode)
    {
      if play.Some? {
        play := Some(play.value.(players := WithoutPlayer(play.value.players, id)));
      }
    }

    /** `addLine`: appended to the play's lines; no play stays no play. */
    method AddLine(l: Line)
      modifies this
      ensures play == if old(play).Some? then Some(old(play).value.(lines := old(play).value.lines + [l])) else None
      ensures selectedPlayerId == old(selectedPlayerId) && selectedLineId == old(selectedLineId) && mode == old(mode)
    {
      if play.Some? {
        play := Some(play.value.(lines := play.value.lines + [l]));
      }
    }

    /** `updateLine`: merged into the play's lines with that id only. */
    method UpdateLine(id: string, u: LinePatch)
      modifies this
      ensures play == if old(play).Some? then Some(old(play).value.(lines := UpdateLines(old(play).value.lines, id, u))) else None
      ensures selectedPlayerId == old(selectedPlayerId) && selectedLineId == old(selectedLineId) && mode == old(mode)
    {
      if play.Some? {
        play := Some(play.value.(lines := UpdateLines(play.value.lines, id, u)));
      }
    }

    /** `removeLine`: only the lines with that id go; the players stay. */
    method RemoveLine(id: string)
      modifies this
      ensures play == if old(play).Some? then Some(old(play).value.(lines := WithoutLine(old(play).value.lines, id))) else None
      ensures play.Some? ==> play.value.players == old(play).value.players
      ensures selectedPlayerId == old(selectedPlayerId) && selectedLineId == old(selectedLineId) && mode == old(mode)
    {
      if play.Some? {
        play := Some(play.value.(lines := WithoutLine(play.value.lines, id)));
      }
    }

    /** `setSelectedPlayer`. */
    method SetSelectedPlayer(id: Option<string>)
      modifies this
      ensures selectedPlayerId == id
      ensures play == old(play) && selectedLineId == old(selectedLineId) && mode == old(mode)
    {
      selectedPlayerId := id;
    }

    /** `setSelectedLine`. */
    method SetSelectedLine(id: Option<string>)
      modifies this
      ensures selectedLineId == id
      ensures play == old(play) && selectedPlayerId == old(selectedPlayerId) && mode == old(mode)
    {
      selectedLineId := id;
    }

    /** `setMode`. */
    method SetMode(m: Mode)
      modifies this
      ensures mode == m
      ensures play == old(play) && selectedPlayerId == old(selectedPlayerId) && selectedLineId == old(selectedLineId)
    {
      mode := m;
    }
  }
}
