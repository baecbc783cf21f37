/** The merge panel's handlers: overlay upload, overlay placement sliders
    and the mask tool and brush size. */
module MergePanel {
  import opened Base
  import ImageUploader

  /** Placement of the overlay image. */
  datatype OverlayConfig = OverlayConfig(x: real, y: real, scale: real, rotation: real, opacity: real)

  datatype OverlayKey = X | Y | Scale | Rotation | Opacity

  function Get(c: OverlayConfig, key: OverlayKey): real
  {
    match key
    case X => c.x
    case Y => c.y
    case Scale => c.scale
    case Rotation => c.rotation
    case Opacity => c.opacity
  }

  /** `'move' | 'brush' | 'eraser'`. */
  datatype MergeTool = Move | Brush | Eraser

  datatype MergeConfig = MergeConfig(tool: MergeTool, brushSize: real)

  /** The tool buttons, in display order, with their labels. */
  const ToolButtons: seq<(MergeTool, string)> := [(Move, "Move"), (Brush, "Brush"), (Eraser, "Eraser")]

  /** The tools that have a button. */
  function ButtonTools(): set<MergeTool>
  {
    set b | b in ToolButtons :: b.0
  }

  /** Every tool has exactly one button, so the buttons can only ever select
      `move`, `brush` or `eraser`, and each of them. */
  lemma ToolButtonsCoverTools()
    ensures forall t: MergeTool :: t in ButtonTools()
    ensures forall i, j :: 0 <= i < j < |ToolButtons| ==> ToolButtons[i].0 != ToolButtons[j].0
  {
    assert ToolButtons[0] in ToolButtons && ToolButtons[1] in ToolButtons && ToolButtons[2] in ToolButtons;
    assert Move in ButtonTools() && Brush in ButtonTools() && Eraser in ButtonTools();
    forall t: MergeTool ensures t in ButtonTools() {
      match t
      case Move =>
      case Brush =>
      case Eraser =>
    }
  }

  /** `handleConfigChange`: replace exactly the named placement value. */
  function HandleConfigChange(c: OverlayConfig, key: OverlayKey, value: real): (r: OverlayConfig)
    ensures Get(r, key) == value
    ensures forall k :: k != key ==> Get(r, k) == Get(c, k)
  {
    match key
    case X => c.(x := value)
    case Y => c.(y := value)
    case Scale => c.(scale := value)
    case Rotation => c.(rotation := value)
    case Opacity => c.(opacity := value)
  }

  /** Two changes of the same key: the later one wins. */
  lemma ConfigChangeLastWins(c: OverlayConfig, key: OverlayKey, v1: real, v2: real)
    ensures HandleConfigChange(HandleConfigChange(c, key, v1), key, v2) == HandleConfigChange(c, key, v2)
  {
  }

  /** `handleMergeToolChange`: set the tool, keep the brush size. */
  function HandleMergeToolChange(m: MergeConfig, tool: MergeTool): (r: MergeConfig)
    ensures r.tool == tool && r.brushSize == m.brushSize
  {
    m.(tool := tool)
  }

  /** `handleBrushSizeChange`: set the brush size, keep the tool. */
  function HandleBrushSizeChange(m: MergeConfig, brushSize: real): (r: MergeConfig)
    ensures r.brushSize == brushSize && r.tool == m.tool
  {
    m.(brushSize := brushSize)
  }

  /** Tool and brush size are independent: the two changes commute. */
  lemma ToolAndSizeCommute(m: MergeConfig, tool: MergeTool, size: real)
    ensures HandleBrushSizeChange(HandleMergeToolChange(m, tool), size)
         == HandleMergeToolChange(HandleBrushSizeChange(m, size), tool)
  {
  }

  /** `handleFileChange`: the first chosen file goes to `onOverlayUpload`,
      and nothing is sent without one. */
  function HandleFileChange(files: seq<ImageUploader.File>): (r: Option<ImageUploader.File>)
    ensures r.None? <==> |files| == 0
    ensures r.Some? ==> r.value == files[0]
  {
    ImageUploader.FirstFile(files)
  }

  /** The overlay input forwards exactly what the main picker would, with no
      type check either. */
  lemma FileChangeLikePicker(files: seq<ImageUploader.File>)
    ensures HandleFileChange(files) == ImageUploader.OnFileChange(files)
  {
  }
}
