/** Pieces with a separator between any two. */
module Joining {
  function JoinWith<T>(pieces: seq<seq<T>>, end: seq<T>): seq<T>
    requires pieces != []
  {
    if |pieces| == 1 then pieces[0] else pieces[0] + end + JoinWith(pieces[1..], end)
  }
}
