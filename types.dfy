/** The record shapes of lib/types.ts that the core passes around. Dates are
    opaque timestamps supplied by the caller. */
module Types {

  import opened Wrappers
  import opened Json

  /** An A2UI component: its id and the `component` object `{Type: props}`. */
  datatype Node = Node(id: string, component: seq<(string, Json)>)

  /** A chat message; `components` is the UI generated with it, if any. */
  datatype ChatMessage = ChatMessage(id: string, role: string, content: string, timestamp: int,
                                     components: Option<seq<Node>>)

  /** A design canvas; `components` is `null` until something is generated. */
  datatype Screen = Screen(id: string, name: string, components: Option<seq<Node>>,
                           dataModel: Json, chatHistory: seq<ChatMessage>)

  datatype Project = Project(id: string, name: string, screens: seq<Screen>,
                             createdAt: int, updatedAt: int)
}
