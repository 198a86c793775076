/**
 * Sequential id allocation: one named counter document per id family
 * ("patient", "doctor", "ehr"), bumped by an upserting `$inc` and reset to
 * the family's start value on first use.
 */
module Counter {

  /** The start value `getNextCounter` uses when none is given. */
  const DefaultStart: int := 1000

  /**
   * The value `getNextCounter(name, start)` returns and stores, given the
   * counters before the call.
   */
  function NextCounter(values: map<string, int>, name: string, start: int): (v: int)
    ensures name in values && values[name] != 0 ==> v == values[name] + 1
    ensures name !in values || values[name] == 0 ==> v == start
  {
    var incremented := (if name in values then values[name] else 0) + 1;
    if incremented == 1 then start else incremented
  }

  /** Once a counter holds a value at least `start`, every later value is larger. */
  lemma NextCounterGrows(values: map<string, int>, name: string, start: int)
    requires start >= 1
    requires name in values ==> values[name] >= start
    ensures NextCounter(values, name, start) >= start
    ensures name in values ==> NextCounter(values, name, start) > values[name]
  {
  }

  /** The counter collection: counter name to current value. */
  class CounterStore {
    var values: map<string, int>

    constructor()
      ensures values == map[]
    {
      values := map[];
    }

    /** `getNextCounter(name, startValue)`. */
    method GetNextCounter(name: string, startValue: int := DefaultStart) returns (v: int)
      modifies this
      ensures name in old(values) && old(values)[name] != 0 ==> v == old(values)[name] + 1
      ensures name !in old(values) || old(values)[name] == 0 ==> v == startValue
      ensures v == NextCounter(old(values), name, startValue)
      ensures values == old(values)[name := v]
    {
      // findOneAndUpdate({name}, {$inc: {value: 1}}, {new: true, upsert: true}):
      // an inserted document starts from 0, since the incremented path takes no default
      var value := if name in values then values[name] + 1 else 1;
      values := values[name := value];
      if value == 1 {
        value := startValue;
        values := values[name := value];
      }
      v := value;
    }
  }
}
