/**
 * The host pipeline's event, reduced to what the CSV processor uses of it:
 * a mutable container of named string fields with get, put, delete and a
 * membership test.
 */
module Events {

  class Event {
    var fields: map<string, string>

    constructor (initial: map<string, string>)
      ensures fields == initial
    {
      fields := initial;
    }

    /** `event.containsKey(key)` */
    function ContainsKey(key: string): bool
      reads this
    {
      key in fields
    }

    /** `event.get(key, String.class)` on a field that is present. */
    function Get(key: string): string
      reads this
      requires key in fields
    {
      fields[key]
    }

    /** `event.put(key, value)`: adds the field or overwrites its old value. */
    method Put(key: string, value: string)
      modifies this
      ensures fields == old(fields)[key := value]
    {
      fields := fields[key := value];
    }

    /** `event.delete(key)`: removes the field if present. */
    method Delete(key: string)
      modifies this
      ensures fields == old(fields) - {key}
    {
      fields := fields - {key};
    }
  }
}
