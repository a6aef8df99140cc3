/**
 * The slice of the editor's immediate-mode event (`Event.current`) that the console
 * reads: its type, its key code and the shift/command/control modifiers. Handlers
 * receive the event and hand it on; `Use` is how a handler consumes it, after which
 * every later handler in the same pass sees an event of type `Used`.
 */
module GuiEvents {

  datatype EventType = KeyDown | KeyUp | Layout | Repaint | Used | OtherEvent

  datatype KeyCode = UpArrow | DownArrow | Return | Escape | Backspace | OtherKey

  datatype Event = Event(eventType: EventType, keyCode: KeyCode, shift: bool, command: bool, control: bool)
  {
    /** `Event.isKey`: a key went down or up. */
    predicate IsKey()
    {
      eventType == KeyDown || eventType == KeyUp
    }

    /** `Event.Use()`: the event is consumed; nothing else about it changes. */
    function Use(): (e: Event)
      ensures !e.IsKey() && e.eventType == Used
      ensures e.keyCode == keyCode && e.shift == shift && e.command == command && e.control == control
    {
      this.(eventType := Used)
    }
  }
}
