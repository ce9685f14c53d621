/**
 * The difficulty presets of the catch game: a fixed table from a mode key
 * to the number of starting lives, the spawn interval (seconds) and the
 * falling speed (pixels per second).
 */
module Modes {

  /** One difficulty preset (the `CFG` record of the game). */
  datatype Config = Config(lives: int, spawn: real, speed: real)

  /** The mode table: exactly three keys. */
  const Table: map<string, Config> := map[
    "easy"   := Config(5, 0.45, 650.0),
    "normal" := Config(3, 0.28, 900.0),
    "hard"   := Config(2, 0.18, 1200.0)
  ]

  /** The mode selected when the page loads. */
  const DefaultMode: string := "normal"

  /** Every preset starts with at least one life and has a positive spawn interval and speed. */
  ghost predicate Sane(c: Config)
  {
    c.lives > 0 && c.spawn > 0.0 && c.speed > 0.0
  }

  /** Looking a key up in the table: the presets as listed, and nothing for any other key. */
  function Lookup(m: string): (r: Option)
    ensures r.Some? <==> m in {"easy", "normal", "hard"}
    ensures r.Some? ==> Sane(r.value)
    ensures m == "easy" ==> r == Some(Config(5, 0.45, 650.0))
    ensures m == "normal" ==> r == Some(Config(3, 0.28, 900.0))
    ensures m == "hard" ==> r == Some(Config(2, 0.18, 1200.0))
  {
    if m in Table then Some(Table[m]) else None
  }

  datatype Option = None | Some(value: Config)
}
