/** The static catalog the wizard runs over: object types, parameter definitions per
    type, catalog objects and sub-object templates per type. */
module MockData {
  import opened Wrappers
  import opened Numbers
  import opened ObjectTypes

  const ObjectTypeList: seq<ObjectType> := [
    ObjectType("compressor", "Компрессорная станция", 5),
    ObjectType("oilPrep", "Установка подготовки нефти", 1),
    ObjectType("pumpStation", "Дожимная насосная станция", 4),
    ObjectType("complexPrep", "Установка комплексной подготовки нефти", 3)
  ]

  const ParametersByType: map<string, seq<Parameter>> := map[
    "compressor" := [
      Parameter("gas-volume", "Объем компримируемого газа, млн. м3/сут", Num(Decimal(25, 1))),
      Parameter("input-pressure", "Давление газа на входе КС (изб.), МПа", Text("0.5 - 0.9")),
      Parameter("temp-in", "Температура газа на входе, °C", Text("0 - 40")),
      Parameter("output-pressure", "Давление газа на выходе дожимающего ГПА (изб.), МПа", Text("2.5 - 3.2")),
      Parameter("comp-ratio", "Давление сжигаемой в факеле (изб.), МПа", Text("2.7 - 2.9")),
      Parameter("temp-out", "Температура газа после АВО, °C", Text("-30 - 45")),
      Parameter("pipe-pressure", "Давление газа, подаваемого в трубопровод, МПа", Num(Decimal(12, 0)))
    ],
    "oilPrep" := [
      Parameter("oil-volume", "Объем подготавливаемой нефти, тыс. м3/сут", Num(Decimal(25, 1))),
      Parameter("water-content", "Содержание воды, %", Num(Decimal(55, 0))),
      Parameter("mech-impurities", "Содержание механических примесей, %", Num(Decimal(18, 2))),
      Parameter("temp-process", "Температура процесса, °C", Num(Decimal(42, 0)))
    ],
    "pumpStation" := [
      Parameter("pump-volume", "Объем перекачиваемой нефти, тыс. м3/сут", Num(Decimal(35, 1))),
      Parameter("input-pressure-pump", "Давление на входе, МПа", Num(Decimal(7, 1))),
      Parameter("output-pressure-pump", "Давление на выходе, МПа", Num(Decimal(65, 1))),
      Parameter("productivity", "Производительность, млн. м3/сут", Num(Decimal(42, 1)))
    ],
    "complexPrep" := [
      Parameter("complex-volume", "Объем подготавливаемой нефти, тыс. м3/сут", Num(Decimal(55, 1))),
      Parameter("gas-content", "Содержание газа, %", Num(Decimal(12, 0))),
      Parameter("water-complex", "Содержание воды, %", Num(Decimal(65, 0))),
      Parameter("temp-complex", "Температура процесса, °C", Num(Decimal(48, 0)))
    ]
  ]

  const SystemObjects: seq<SystemObject> := [
    SystemObject("ДКС-1", "ДКС-1", "compressor", Some([
      Parameter("gas-volume", "Объем компримируемого газа, млн. м3/сут", Num(Decimal(15, 1))),
      Parameter("input-pressure", "Давление газа на входе КС (изб.), МПа", Text("0.5 - 0.9")),
      Parameter("output-pressure", "Давление газа на выходе, МПа", Text("2.5 - 2.8"))
    ])),
    SystemObject("ДКС-2", "ДКС-2", "compressor", Some([
      Parameter("gas-volume", "Объем компримируемого газа, млн. м3/сут", Num(Decimal(25, 1))),
      Parameter("input-pressure", "Давление газа на входе КС (изб.), МПа", Text("0.7 - 1.0")),
      Parameter("output-pressure", "Давление газа на выходе, МПа", Text("2.8 - 3.0"))
    ])),
    SystemObject("ДКС-3 УКПГ", "ДКС-3 УКПГ", "compressor", Some([
      Parameter("gas-volume", "Объем компримируемого газа, млн. м3/сут", Num(Decimal(30, 1))),
      Parameter("input-pressure", "Давление газа на входе КС (изб.), МПа", Text("0.6 - 0.95")),
      Parameter("output-pressure", "Давление газа на выходе, МПа", Text("2.7 - 2.9"))
    ])),
    SystemObject("ДКС-4", "ДКС-4", "compressor", Some([
      Parameter("gas-volume", "Объем компримируемого газа, млн. м3/сут", Num(Decimal(22, 1))),
      Parameter("input-pressure", "Давление газа на входе КС (изб.), МПа", Text("0.6 - 0.85")),
      Parameter("output-pressure", "Давление газа на выходе, МПа", Text("2.6 - 2.85")),
      Parameter("temp-in", "Температура газа на входе, °C", Text("5 - 35"))
    ])),
    SystemObject("ДКС-5", "ДКС-5", "compressor", Some([
      Parameter("gas-volume", "Объем компримируемого газа, млн. м3/сут", Num(Decimal(35, 1))),
      Parameter("input-pressure", "Давление газа на входе КС (изб.), МПа", Text("0.75 - 1.1")),
      Parameter("output-pressure", "Давление газа на выходе, МПа", Text("3.0 - 3.2")),
      Parameter("pipe-pressure", "Давление газа, подаваемого в трубопровод, МПа", Num(Decimal(12, 0)))
    ])),
    SystemObject("УПН-1", "УПН-1", "oilPrep", Some([
      Parameter("oil-volume", "Объем подготавливаемой нефти, тыс. м3/сут", Num(Decimal(20, 1))),
      Parameter("water-content", "Содержание воды, %", Num(Decimal(50, 0))),
      Parameter("temp-process", "Температура процесса, °C", Num(Decimal(40, 0)))
    ])),
    SystemObject("УПН-2", "УПН-2", "oilPrep", Some([
      Parameter("oil-volume", "Объем подготавливаемой нефти, тыс. м3/сут", Num(Decimal(25, 1))),
      Parameter("water-content", "Содержание воды, %", Num(Decimal(55, 0))),
      Parameter("mech-impurities", "Содержание механических примесей, %", Num(Decimal(18, 2))),
      Parameter("temp-process", "Температура процесса, °C", Num(Decimal(42, 0)))
    ])),
    SystemObject("ДНС-1", "ДНС-1", "pumpStation", Some([
      Parameter("pump-volume", "Объем перекачиваемой нефти, тыс. м3/сут", Num(Decimal(30, 1))),
      Parameter("input-pressure-pump", "Давление на входе, МПа", Num(Decimal(5, 1))),
      Parameter("output-pressure-pump", "Давление на выходе, МПа", Num(Decimal(60, 1)))
    ])),
    SystemObject("ДНС-2", "ДНС-2", "pumpStation", Some([
      Parameter("pump-volume", "Объем перекачиваемой нефти, тыс. м3/сут", Num(Decimal(35, 1))),
      Parameter("input-pressure-pump", "Давление на входе, МПа", Num(Decimal(7, 1))),
      Parameter("output-pressure-pump", "Давление на выходе, МПа", Num(Decimal(65, 1))),
      Parameter("productivity", "Производительность, млн. м3/сут", Num(Decimal(42, 1)))
    ]))
  ]

  const SubObjectTypes: map<string, seq<SubObject>> := map[
    "compressor" := [
      SubObject("gpa-1", "Газоперекачивающий агрегат ГПА-Ц-6,3А (с двигателем НК-12СТ)", "Компрессорное устройство", [
        Parameter("productivity", "Производительность, млн. м³/сут", Num(Decimal(110, 1))),
        Parameter("pressure", "Давление нагнетания, МПа (изб.)", Num(Decimal(75, 1)))
      ], 1, false),
      SubObject("cooling-system", "Блок аппаратов воздушного охлаждения", "Вспомогательное устройство", [
        Parameter("type", "Тип", Text("Секция")),
        Parameter("quantity", "Количество аппаратов", Text("2")),
        Parameter("volume", "Объем КГ, м³", Text("1,5"))
      ], 1, false),
      SubObject("filter-separator", "Фильтр-сепаратор", "Вспомогательное устройство", [
        Parameter("type", "Тип", Text("Циклонный")),
        Parameter("pressure", "Рабочее давление, МПа", Text("1,0 - 4,0")),
        Parameter("capacity", "Пропускная способность, млн. м³/сут", Text("10,0"))
      ], 1, false),
      SubObject("control-system", "Система автоматизированного управления", "Система управления", [
        Parameter("type", "Тип", Text("САУ")),
        Parameter("capacity", "Количество входов/выходов", Text("600/400"))
      ], 1, false)
    ],
    "oilPrep" := [
      SubObject("oil-separator", "Сепаратор нефти", "Разделительное устройство", [
        Parameter("type", "Тип", Text("Гравитационный")),
        Parameter("pressure", "Рабочее давление, МПа", Text("0,6 - 1,6")),
        Parameter("capacity", "Пропускная способность, тыс. м³/сут", Text("3,0"))
      ], 1, false),
      SubObject("heater", "Нагреватель", "Теплообменное оборудование", [
        Parameter("type", "Тип", Text("Пластинчатый")),
        Parameter("temperature", "Температура нагрева, °C", Text("до 60")),
        Parameter("power", "Тепловая мощность, МВт", Text("1,2"))
      ], 1, false)
    ],
    "pumpStation" := [
      SubObject("pump-unit", "Насосный агрегат", "Насосное оборудование", [
        Parameter("type", "Тип", Text("Центробежный")),
        Parameter("capacity", "Производительность, м³/ч", Text("150")),
        Parameter("head", "Напор, м", Text("200"))
      ], 2, false),
      SubObject("pump-control", "Система управления насосами", "Система управления", [
        Parameter("type", "Тип", Text("АСУТП")),
        Parameter("features", "Функции", Text("Мониторинг, управление, защита"))
      ], 1, false)
    ]
  ]

  /** `parametersByType[objectType] || []`. */
  function ParametersOf(objectType: string): (ps: seq<Parameter>)
    ensures objectType !in ParametersByType ==> ps == []
  {
    if objectType in ParametersByType then ParametersByType[objectType] else []
  }

  /** `subObjectTypes[objectType] || []`. */
  function SubObjectsOf(objectType: string): (subs: seq<SubObject>)
    ensures objectType !in SubObjectTypes ==> subs == []
  {
    if objectType in SubObjectTypes then SubObjectTypes[objectType] else []
  }
}
