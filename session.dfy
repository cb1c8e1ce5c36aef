/**
 * Streamlit's `st.session_state`, one key at a time: a key either is not
 * there yet or holds a value that survives reruns of the page script.
 */
module Session {

  datatype Slot<T> = Absent | Present(value: T)

  /** `if key not in st.session_state: st.session_state.key = initial`. */
  function InitSlot<T>(s: Slot<T>, initial: T): Slot<T>
  {
    if s.Absent? then Present(initial) else s
  }
}
