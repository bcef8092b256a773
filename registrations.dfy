/** The order in which the registry's constructor fills the type registry
    (components/a2ui/ComponentRegistry.tsx, lines 226-1590): first the
    hand-written renderers, each known by the line of its `this.register`
    call, then the generic wrappers of the imported widget components, as
    `(name, component)` pairs. The calls are kept in source order, in groups
    of ten. */
module Registrations {

  /** `this.register` calls of lines 232-416. */
  const Curated0: seq<(string, nat)> := [
    ("Column", 232), ("Row", 253), ("Card", 274), ("Section", 301),
    ("AspectRatio", 313), ("Resizable", 322), ("Sidebar", 344), ("SidebarTrigger", 372),
    ("Text", 381), ("Image", 416)
  ]

  /** `this.register` calls of lines 432-552. */
  const Curated1: seq<(string, nat)> := [
    ("Icon", 432), ("Badge", 445), ("Divider", 453), ("Breadcrumb", 458),
    ("Avatar", 483), ("Alert", 496), ("Progress", 509), ("Skeleton", 515),
    ("TextField", 524), ("InputGroup", 552)
  ]

  /** `this.register` calls of lines 564-756. */
  const Curated2: seq<(string, nat)> := [
    ("InputGroupAddon", 564), ("TextArea", 573), ("SelectInput", 601), ("CheckBox", 635),
    ("RadioInput", 648), ("DateInput", 665), ("Toggle", 692), ("Slider", 705),
    ("Button", 735), ("Link", 756)
  ]

  /** `this.register` calls of lines 772-946. */
  const Curated3: seq<(string, nat)> := [
    ("Dialog", 772), ("AlertDialog", 794), ("Drawer", 815), ("Sheet", 841),
    ("Popover", 861), ("Tooltip", 875), ("Collapsible", 891), ("Carousel", 905),
    ("Tabs", 923), ("Accordion", 946)
  ]

  /** `this.register` calls of lines 967-1182. */
  const Curated4: seq<(string, nat)> := [
    ("DropdownMenu", 967), ("Table", 1000), ("ScrollArea", 1031), ("ListView", 1041),
    ("ChipList", 1064), ("Pagination", 1079), ("Command", 1101), ("Menubar", 1126),
    ("NavigationMenu", 1153), ("ContextMenu", 1182)
  ]

  /** `this.register` calls of lines 1207-1325. */
  const Curated5: seq<(string, nat)> := [
    ("ButtonGroup", 1207), ("Empty", 1219), ("Field", 1241), ("InputOTP", 1259),
    ("ToggleGroup", 1280), ("Toggle", 1298), ("HoverCard", 1311), ("Chart", 1325)
  ]

  /** `registerSimple(name, Comp)` calls of lines 1390-1399. */
  const Simple00: seq<(string, string)> := [
    ("Card", "Card"), ("CardContent", "CardContent"), ("CardDescription", "CardDescription"),
    ("CardFooter", "CardFooter"), ("CardHeader", "CardHeader"), ("CardTitle", "CardTitle"),
    ("AspectRatio", "AspectRatio"), ("ResizableHandle", "ResizableHandle"), ("ResizablePanel", "ResizablePanel"),
    ("ResizablePanelGroup", "ResizablePanelGroup")
  ]

  /** `registerSimple(name, Comp)` calls of lines 1400-1411. */
  const Simple01: seq<(string, string)> := [
    ("Sidebar", "Sidebar"), ("SidebarContent", "SidebarContent"), ("SidebarFooter", "SidebarFooter"),
    ("SidebarHeader", "SidebarHeader"), ("SidebarProvider", "SidebarProvider"), ("SidebarTrigger", "SidebarTrigger"),
    ("Button", "Button"), ("Input", "Input"), ("InputGroup", "InputGroup"),
    ("InputGroupAddon", "InputGroupAddon")
  ]

  /** `registerSimple(name, Comp)` calls of lines 1412-1421. */
  const Simple02: seq<(string, string)> := [
    ("InputGroupButton", "InputGroupButton"), ("InputGroupInput", "InputGroupInput"), ("Textarea", "Textarea"),
    ("Label", "Label"), ("Checkbox", "Checkbox"), ("RadioGroup", "RadioGroup"),
    ("RadioGroupItem", "RadioGroupItem"), ("Switch", "Switch"), ("Slider", "Slider"),
    ("Select", "Select")
  ]

  /** `registerSimple(name, Comp)` calls of lines 1422-1433. */
  const Simple03: seq<(string, string)> := [
    ("SelectContent", "SelectContent"), ("SelectItem", "SelectItem"), ("SelectTrigger", "SelectTrigger"),
    ("SelectValue", "SelectValue"), ("Badge", "Badge"), ("Avatar", "Avatar"),
    ("AvatarFallback", "AvatarFallback"), ("AvatarImage", "AvatarImage"), ("Separator", "Separator"),
    ("Skeleton", "Skeleton")
  ]

  /** `registerSimple(name, Comp)` calls of lines 1434-1443. */
  const Simple04: seq<(string, string)> := [
    ("Alert", "Alert"), ("AlertDescription", "AlertDescription"), ("AlertTitle", "AlertTitle"),
    ("Progress", "Progress"), ("Breadcrumb", "Breadcrumb"), ("BreadcrumbItem", "BreadcrumbItem"),
    ("BreadcrumbLink", "BreadcrumbLink"), ("BreadcrumbList", "BreadcrumbList"), ("BreadcrumbPage", "BreadcrumbPage"),
    ("BreadcrumbSeparator", "BreadcrumbSeparator")
  ]

  /** `registerSimple(name, Comp)` calls of lines 1446-1455. */
  const Simple05: seq<(string, string)> := [
    ("Dialog", "Dialog"), ("DialogContent", "DialogContent"), ("DialogDescription", "DialogDescription"),
    ("DialogFooter", "DialogFooter"), ("DialogHeader", "DialogHeader"), ("DialogTitle", "DialogTitle"),
    ("DialogTrigger", "DialogTrigger"), ("DropdownMenu", "DropdownMenu"), ("DropdownMenuContent", "DropdownMenuContent"),
    ("DropdownMenuItem", "DropdownMenuItem")
  ]

  /** `registerSimple(name, Comp)` calls of lines 1456-1465. */
  const Simple06: seq<(string, string)> := [
    ("DropdownMenuLabel", "DropdownMenuLabel"), ("DropdownMenuSeparator", "DropdownMenuSeparator"), ("DropdownMenuTrigger", "DropdownMenuTrigger"),
    ("Tooltip", "Tooltip"), ("TooltipContent", "TooltipContent"), ("TooltipProvider", "TooltipProvider"),
    ("TooltipTrigger", "TooltipTrigger"), ("Tabs", "Tabs"), ("TabsContent", "TabsContent"),
    ("TabsList", "TabsList")
  ]

  /** `registerSimple(name, Comp)` calls of lines 1466-1475. */
  const Simple07: seq<(string, string)> := [
    ("TabsTrigger", "TabsTrigger"), ("Accordion", "Accordion"), ("AccordionContent", "AccordionContent"),
    ("AccordionItem", "AccordionItem"), ("AccordionTrigger", "AccordionTrigger"), ("Sheet", "Sheet"),
    ("SheetContent", "SheetContent"), ("SheetDescription", "SheetDescription"), ("SheetHeader", "SheetHeader"),
    ("SheetTitle", "SheetTitle")
  ]

  /** `registerSimple(name, Comp)` calls of lines 1476-1485. */
  const Simple08: seq<(string, string)> := [
    ("SheetTrigger", "SheetTrigger"), ("Popover", "Popover"), ("PopoverContent", "PopoverContent"),
    ("PopoverTrigger", "PopoverTrigger"), ("AlertDialog", "AlertDialog"), ("AlertDialogAction", "AlertDialogAction"),
    ("AlertDialogCancel", "AlertDialogCancel"), ("AlertDialogContent", "AlertDialogContent"), ("AlertDialogDescription", "AlertDialogDescription"),
    ("AlertDialogFooter", "AlertDialogFooter")
  ]

  /** `registerSimple(name, Comp)` calls of lines 1486-1495. */
  const Simple09: seq<(string, string)> := [
    ("AlertDialogHeader", "AlertDialogHeader"), ("AlertDialogTitle", "AlertDialogTitle"), ("AlertDialogTrigger", "AlertDialogTrigger"),
    ("Drawer", "Drawer"), ("DrawerClose", "DrawerClose"), ("DrawerContent", "DrawerContent"),
    ("DrawerDescription", "DrawerDescription"), ("DrawerFooter", "DrawerFooter"), ("DrawerHeader", "DrawerHeader"),
    ("DrawerTitle", "DrawerTitle")
  ]

  /** `registerSimple(name, Comp)` calls of lines 1496-1505. */
  const Simple10: seq<(string, string)> := [
    ("DrawerTrigger", "DrawerTrigger"), ("Collapsible", "Collapsible"), ("CollapsibleContent", "CollapsibleContent"),
    ("CollapsibleTrigger", "CollapsibleTrigger"), ("Carousel", "Carousel"), ("CarouselContent", "CarouselContent"),
    ("CarouselItem", "CarouselItem"), ("CarouselNext", "CarouselNext"), ("CarouselPrevious", "CarouselPrevious"),
    ("ChartContainer", "ChartContainer")
  ]

  /** `registerSimple(name, Comp)` calls of lines 1506-1517. */
  const Simple11: seq<(string, string)> := [
    ("ChartTooltip", "ChartTooltip"), ("ChartTooltipContent", "ChartTooltipContent"), ("Table", "Table"),
    ("TableBody", "TableBody"), ("TableCaption", "TableCaption"), ("TableCell", "TableCell"),
    ("TableHead", "TableHead"), ("TableHeader", "TableHeader"), ("TableRow", "TableRow"),
    ("ScrollArea", "ScrollArea")
  ]

  /** `registerSimple(name, Comp)` calls of lines 1518-1529. */
  const Simple12: seq<(string, string)> := [
    ("Pagination", "Pagination"), ("PaginationContent", "PaginationContent"), ("PaginationEllipsis", "PaginationEllipsis"),
    ("PaginationItem", "PaginationItem"), ("PaginationLink", "PaginationLink"), ("PaginationNext", "PaginationNext"),
    ("PaginationPrevious", "PaginationPrevious"), ("Command", "Command"), ("CommandEmpty", "CommandEmpty"),
    ("CommandGroup", "CommandGroup")
  ]

  /** `registerSimple(name, Comp)` calls of lines 1530-1539. */
  const Simple13: seq<(string, string)> := [
    ("CommandInput", "CommandInput"), ("CommandItem", "CommandItem"), ("CommandList", "CommandList"),
    ("CommandSeparator", "CommandSeparator"), ("CommandShortcut", "CommandShortcut"), ("Menubar", "Menubar"),
    ("MenubarContent", "MenubarContent"), ("MenubarItem", "MenubarItem"), ("MenubarMenu", "MenubarMenu"),
    ("MenubarSeparator", "MenubarSeparator")
  ]

  /** `registerSimple(name, Comp)` calls of lines 1540-1552. */
  const Simple14: seq<(string, string)> := [
    ("MenubarShortcut", "MenubarShortcut"), ("MenubarTrigger", "MenubarTrigger"), ("NavigationMenu", "NavigationMenu"),
    ("NavigationMenuContent", "NavigationMenuContent"), ("NavigationMenuItem", "NavigationMenuItem"), ("NavigationMenuLink", "NavigationMenuLink"),
    ("NavigationMenuList", "NavigationMenuList"), ("NavigationMenuTrigger", "NavigationMenuTrigger"), ("ContextMenu", "ContextMenu"),
    ("ContextMenuCheckboxItem", "ContextMenuCheckboxItem")
  ]

  /** `registerSimple(name, Comp)` calls of lines 1553-1562. */
  const Simple15: seq<(string, string)> := [
    ("ContextMenuContent", "ContextMenuContent"), ("ContextMenuItem", "ContextMenuItem"), ("ContextMenuLabel", "ContextMenuLabel"),
    ("ContextMenuRadioGroup", "ContextMenuRadioGroup"), ("ContextMenuRadioItem", "ContextMenuRadioItem"), ("ContextMenuSeparator", "ContextMenuSeparator"),
    ("ContextMenuShortcut", "ContextMenuShortcut"), ("ContextMenuSub", "ContextMenuSub"), ("ContextMenuSubContent", "ContextMenuSubContent"),
    ("ContextMenuSubTrigger", "ContextMenuSubTrigger")
  ]

  /** `registerSimple(name, Comp)` calls of lines 1563-1574. */
  const Simple16: seq<(string, string)> := [
    ("ContextMenuTrigger", "ContextMenuTrigger"), ("ButtonGroup", "ButtonGroup"), ("ButtonGroupSeparator", "ButtonGroupSeparator"),
    ("Empty", "Empty"), ("EmptyContent", "EmptyContent"), ("EmptyDescription", "EmptyDescription"),
    ("EmptyHeader", "EmptyHeader"), ("EmptyMedia", "EmptyMedia"), ("EmptyTitle", "EmptyTitle"),
    ("Field", "Field")
  ]

  /** `registerSimple(name, Comp)` calls of lines 1575-1584. */
  const Simple17: seq<(string, string)> := [
    ("FieldContent", "FieldContent"), ("FieldDescription", "FieldDescription"), ("FieldError", "FieldError"),
    ("FieldLabel", "FieldLabel"), ("HoverCard", "HoverCard"), ("HoverCardContent", "HoverCardContent"),
    ("HoverCardTrigger", "HoverCardTrigger"), ("InputOTP", "InputOTP"), ("InputOTPGroup", "InputOTPGroup"),
    ("InputOTPSeparator", "InputOTPSeparator")
  ]

  /** `registerSimple(name, Comp)` calls of lines 1585-1589. `SwitchToggle` is `Toggle`
      imported under a second name (line 209). */
  const Simple18: seq<(string, string)> := [
    ("InputOTPSlot", "InputOTPSlot"), ("ToggleGroup", "ToggleGroup"), ("ToggleGroupItem", "ToggleGroupItem"),
    ("Toggle", "Toggle"), ("SwitchToggle", "Toggle")
  ]

  /** Every `this.register` call, in order. */
  const CuratedTable: seq<(string, nat)> :=
    Curated0 + Curated1 + Curated2 + Curated3 + Curated4 + Curated5

  /** Every `registerSimple` call, in order. */
  const GenericTable: seq<(string, string)> :=
    Simple00 + Simple01 + Simple02 + Simple03 + Simple04 + Simple05 + Simple06
    + Simple07 + Simple08 + Simple09 + Simple10 + Simple11 + Simple12 + Simple13
    + Simple14 + Simple15 + Simple16 + Simple17 + Simple18
}
