/** The standard component catalog of lib/a2ui-catalog.ts and the prompt text
    `getCatalogForPrompt` builds from it. */
module Catalog {

  import TextLib = Text
  import opened Json
  import opened Types
  import Registry
  import Render

  /** The keys of the catalog's `components` object, in declaration order. */
  datatype ComponentType =
    // Layout components (lines 10-49)
    | Column | Row | Card | Section | AspectRatio | Resizable | Sidebar | SidebarTrigger
    // Display components (lines 54-108)
    | Text | Image | Icon | Badge | Divider | Avatar | Alert | Progress | Skeleton | Breadcrumb | Empty
    // Input components (lines 113-177)
    | TextField | InputGroup | InputGroupAddon | InputOTP | TextArea | SelectInput | CheckBox | RadioInput | DateInput | Toggle | ToggleGroup | Slider | Field
    // Interactive components (lines 182-261)
    | Button | ButtonGroup | Link | Dialog | DropdownMenu | Tabs | Accordion | Stepper | AlertDialog | Drawer | Sheet | Popover | Tooltip | HoverCard | Collapsible | Carousel
    // Data display components (lines 266-310)
    | Table | Chart | ListView | ChipList | Pagination | Command | Menubar | NavigationMenu | ContextMenu

  /** The key as written in the catalog. */
  function Name(t: ComponentType): string {
    match t
    case Column => "Column"
    case Row => "Row"
    case Card => "Card"
    case Section => "Section"
    case AspectRatio => "AspectRatio"
    case Resizable => "Resizable"
    case Sidebar => "Sidebar"
    case SidebarTrigger => "SidebarTrigger"
    case Text => "Text"
    case Image => "Image"
    case Icon => "Icon"
    case Badge => "Badge"
    case Divider => "Divider"
    case Avatar => "Avatar"
    case Alert => "Alert"
    case Progress => "Progress"
    case Skeleton => "Skeleton"
    case Breadcrumb => "Breadcrumb"
    case Empty => "Empty"
    case TextField => "TextField"
    case InputGroup => "InputGroup"
    case InputGroupAddon => "InputGroupAddon"
    case InputOTP => "InputOTP"
    case TextArea => "TextArea"
    case SelectInput => "SelectInput"
    case CheckBox => "CheckBox"
    case RadioInput => "RadioInput"
    case DateInput => "DateInput"
    case Toggle => "Toggle"
    case ToggleGroup => "ToggleGroup"
    case Slider => "Slider"
    case Field => "Field"
    case Button => "Button"
    case ButtonGroup => "ButtonGroup"
    case Link => "Link"
    case Dialog => "Dialog"
    case DropdownMenu => "DropdownMenu"
    case Tabs => "Tabs"
    case Accordion => "Accordion"
    case Stepper => "Stepper"
    case AlertDialog => "AlertDialog"
    case Drawer => "Drawer"
    case Sheet => "Sheet"
    case Popover => "Popover"
    case Tooltip => "Tooltip"
    case HoverCard => "HoverCard"
    case Collapsible => "Collapsible"
    case Carousel => "Carousel"
    case Table => "Table"
    case Chart => "Chart"
    case ListView => "ListView"
    case ChipList => "ChipList"
    case Pagination => "Pagination"
    case Command => "Command"
    case Menubar => "Menubar"
    case NavigationMenu => "NavigationMenu"
    case ContextMenu => "ContextMenu"
  }

  /** The entry's `description`; the ContextMenu text keeps the three
      characters its em dash was mis-decoded into. */
  function Description(t: ComponentType): string {
    match t
    case Column => "Vertical flex container"
    case Row => "Horizontal flex container"
    case Card => "Card container with optional title"
    case Section => "Semantic section wrapper"
    case AspectRatio => "Component for displaying content within a fixed aspect ratio"
    case Resizable => "Resizable panel layout"
    case Sidebar => "Collapsible application sidebar"
    case SidebarTrigger => "Toggle button for the sidebar"
    case Text => "Text/Typography element"
    case Image => "Image display"
    case Icon => "Icon element"
    case Badge => "Badge/label element"
    case Divider => "Visual separator line"
    case Avatar => "An image element with a fallback for representing the user"
    case Alert => "Displays a callout for user attention"
    case Progress => "Displays an indicator showing the completion progress of a task"
    case Skeleton => "Used to show a placeholder while content is loading"
    case Breadcrumb => "Displays the path to the current resource using a hierarchy of links"
    case Empty => "Placeholder for empty states"
    case TextField => "Single-line text input"
    case InputGroup => "Group multiple inputs and addons together"
    case InputGroupAddon => "Addon for InputGroup"
    case InputOTP => "Accessible one-time password input"
    case TextArea => "Multi-line text input"
    case SelectInput => "Dropdown selection"
    case CheckBox => "Boolean checkbox"
    case RadioInput => "Radio button group"
    case DateInput => "Date picker"
    case Toggle => "Toggle switch"
    case ToggleGroup => "A set of two-state buttons"
    case Slider => "Range slider"
    case Field => "A wrapper for form fields with label, description and validation"
    case Button => "Clickable button"
    case ButtonGroup => "Group of related buttons"
    case Link => "Navigation link"
    case Dialog => "Modal dialog"
    case DropdownMenu => "Context/dropdown menu"
    case Tabs => "Tab panel navigation"
    case Accordion => "Expandable/collapsible sections"
    case Stepper => "Progress/step indicator"
    case AlertDialog => "A modal dialog that interrupts the user with important content and expects a response"
    case Drawer => "A drawer component that slides in from the edge of the screen"
    case Sheet => "Extends the Dialog component to display content that complements the main screen"
    case Popover => "Displays rich content in a portal, triggered by a button"
    case Tooltip => "A popup that displays information related to an element when the element receives keyboard focus or the mouse hovers over it"
    case HoverCard => "For card-like content that appears on hover"
    case Collapsible => "An interactive component which can be expanded or collapsed"
    case Carousel => "A slideshow component for cycling through elements"
    case Table => "Data table"
    case Chart => "Visualize data using various chart types"
    case ListView => "List of items"
    case ChipList => "List of chips/tags"
    case Pagination => "Pagination with previous and next buttons"
    case Command => "Fast, composable, unstyled command menu"
    case Menubar => "A visually persistent menu common in desktop applications"
    case NavigationMenu => "A collection of links for navigating websites"
    case ContextMenu => "Displays a menu to users \U{E2}\U{20AC}\U{201D} typically triggered by right-click"
  }

  /** The catalog in declaration order, which is the order `Object.entries`
      yields its keys, none of them being an integer. */
  function StandardCatalog(): seq<ComponentType> {
    [
      Column, Row, Card, Section, AspectRatio, Resizable, Sidebar, SidebarTrigger,
      Text, Image, Icon, Badge, Divider, Avatar, Alert, Progress, Skeleton, Breadcrumb, Empty,
      TextField, InputGroup, InputGroupAddon, InputOTP, TextArea, SelectInput, CheckBox, RadioInput, DateInput, Toggle, ToggleGroup, Slider, Field,
      Button, ButtonGroup, Link, Dialog, DropdownMenu, Tabs, Accordion, Stepper, AlertDialog, Drawer, Sheet, Popover, Tooltip, HoverCard, Collapsible, Carousel,
      Table, Chart, ListView, ChipList, Pagination, Command, Menubar, NavigationMenu, ContextMenu
    ]
  }

  // ---------------------------------------------------------------------------
  // The prompt formatter
  // ---------------------------------------------------------------------------

  /** One prompt line: `- **<type>**: <description>`. */
  function EntryLine(t: ComponentType): string {
    "- **" + Name(t) + "**: " + Description(t)
  }

  function PromptLines(entries: seq<ComponentType>): seq<string> {
    seq(|entries|, i requires 0 <= i < |entries| => EntryLine(entries[i]))
  }

  /** The lines joined by a single newline. */
  function Prompt(entries: seq<ComponentType>): string {
    TextLib.Join(PromptLines(entries), '\n')
  }

  /** `getCatalogForPrompt()`. */
  function CatalogForPrompt(): string {
    Prompt(StandardCatalog())
  }

  predicate SingleLine(t: ComponentType) {
    '\n' !in Name(t) && '\n' !in Description(t)
  }

  /** The joined text ends with the last piece. */
  lemma {:induction false} JoinEndsWithLast(parts: seq<string>, sep: char)
    requires |parts| >= 1
    ensures var j := TextLib.Join(parts, sep); var last := parts[|parts| - 1];
            |last| <= |j| && j[|j| - |last|..] == last
    decreases |parts|
  {
    if |parts| > 1 {
      JoinEndsWithLast(parts[1..], sep);
      var j := TextLib.Join(parts, sep);
      var rest := TextLib.Join(parts[1..], sep);
      assert j == (parts[0] + [sep]) + rest;
      assert j[|j| - |rest|..] == rest;
    }
  }

  /** For any non-empty table of single-line entries, the prompt splits on
      newlines back into its lines, so there is exactly one line per entry, in
      order, and the prompt does not end with a newline. */
  lemma PromptSplitsIntoLines(entries: seq<ComponentType>)
    requires |entries| >= 1
    requires forall i :: 0 <= i < |entries| ==> SingleLine(entries[i])
    ensures TextLib.Split(Prompt(entries), '\n') == PromptLines(entries)
    ensures |Prompt(entries)| > 0 && Prompt(entries)[|Prompt(entries)| - 1] != '\n'
  {
    var lines := PromptLines(entries);
    forall i | 0 <= i < |lines|
      ensures '\n' !in lines[i]
    {
      assert SingleLine(entries[i]);
      assert '\n' !in "- **" && '\n' !in "**: ";
    }
    TextLib.SplitJoin(lines, '\n');
    JoinEndsWithLast(lines, '\n');
    var p := Prompt(entries);
    var last := lines[|lines| - 1];
    assert |last| > 0 && last[|last| - 1] in last;
    assert p[|p| - 1] == p[|p| - |last|..][|last| - 1];
  }

  /** Each prompt line is the entry's type in bold, a colon and its description. */
  lemma PromptLineFormat(entries: seq<ComponentType>)
    ensures |PromptLines(entries)| == |entries|
    ensures forall i :: 0 <= i < |entries| ==>
              PromptLines(entries)[i] == "- **" + Name(entries[i]) + "**: " + Description(entries[i])
  {
  }

  /** The prompt of a table that holds a multi-line entry has more lines than
      the table has entries: the single-line condition above is needed. */
  lemma MultiLineEntrySplits(entries: seq<ComponentType>, k: nat)
    requires k < |entries|
    requires '\n' in Description(entries[k])
    ensures |TextLib.Split(Prompt(entries), '\n')| > |entries|
  {
    var lines := PromptLines(entries);
    var t := entries[k];
    var front := "- **" + Name(t) + "**: ";
    assert lines[k] == front + Description(t);
    TextLib.OccurrencesAppend(front, Description(t), '\n');
    TextLib.OccursCounted(Description(t), '\n');
    TextLib.JoinCount(lines, '\n', k);
    TextLib.SplitCount(Prompt(entries), '\n');
  }

  // ---------------------------------------------------------------------------
  // Facts about the standard catalog
  // ---------------------------------------------------------------------------

  /** The catalog has 57 entries; its 40th is the Stepper, whose prompt line
      is the 40th. */
  lemma StandardCatalogShape()
    ensures |StandardCatalog()| == 57
    ensures StandardCatalog()[39] == Stepper
    ensures Name(Stepper) == "Stepper" && Description(Stepper) == "Progress/step indicator"
    ensures PromptLines(StandardCatalog())[39] == "- **" + Name(Stepper) + "**: " + Description(Stepper)
  {
  }

  /** The catalog offers a Stepper, but a node of that type renders as the
      unsupported-type diagnostic, since no renderer is registered for it. */
  lemma StepperOfferedButUnsupported(index: map<string, Node>, dataModel: Json, id: string, props: Json, fuel: nat)
    requires id in index && index[id].component == [(Name(Stepper), props)]
    ensures Stepper in StandardCatalog()
    ensures Render.Render(Registry.InitialRegistry().renderers, index, dataModel, id, fuel) == Render.Unsupported("Stepper")
  {
    StandardCatalogShape();
    Render.StepperIsUnsupported(index, dataModel, id, props, fuel);
  }
}
